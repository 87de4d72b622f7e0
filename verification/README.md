# Verification of the VirtualMIPS emulator

A Dafny model of the VirtualMIPS emulator: a MIPS32 machine emulated with two
look-up caches, and the self-contained algorithms around it.

- `Machine.dfy` is the guest machine without either cache: every access scans
  the TLB, every instruction is fetched through it. `Cpu.dfy` is the emulator's
  processor, with the direct-mapped cache of translated pages, the one-page
  fetch pointer and the packed device addresses, updated in place; each of its
  methods is proved against the function of the machine it implements.
  `Coherence.dfy` says when a cached page is right and what a TLB write may do
  to it, exactly and for all legal page sizes.
- Laws of the machine pin it down in plain terms. `Translation.dfy` reads off
  entries, devices and address where an access goes and what its handler is told;
  `Flow.dfy` says which instruction comes next, `Handlers.dfy` what exceptions,
  interrupts and returns do, up to a TLB refill and an atomic update, and
  `Registers.dfy` what the system registers hold.
- `Runs.dfy` and `Restart.dfy` prove laws of the machine over whole runs:
  exception state, the link bit, TLB entries, delay-slot faults; `Interrupts.dfy`
  when a raised line is noticed.
  `Unaligned.dfy` proves the four partial word accesses through the MMU,
  `Aligned.dfy` the whole ones, in memory and in devices.
- `Timers.dfy` is the timer list with re-entrant callbacks; `Crc32.dfy` and
  `Ethernet.dfy` the table-driven CRC and the frames padded with it.
- `Nand.dfy` is the NAND controller over blocks created on first use,
  `NandOperations.dfy` its refinement of a plain store, `NandImage.dfy` the tool
  that lays out images and the boot copy that reads them.
- `DeviceList.dfy` is the intrusive device list with its slot table,
  `Devices.dfy` the dispatch of accesses through it, `Dma.dfy` the page-chunked
  DMA copy between the memories it holds.
- `Vtty.dfy` is the Telnet decoder over its ring buffer, `Gdb.dfy` packet
  framing, `Rtc.dfy` the clock's calendar arithmetic.

`dafny verify dfyconfig.toml` checks the whole project.

## What the code does not do

Where a law one would expect is false of the code, the code is modelled as it is.
The members named say when the law fails, and when it holds.

- A faulting fetch, of an instruction or of a delay slot, empties the page
  pointer but keeps the page number. If control goes on in that page, the
  processor never fetches again (`Restart.FetchFaultWedges`,
  `CpuModel.Cpu.RunWedged`). It goes on at the exception vector, or at the target
  of a branch-likely that ignores the fault of its slot.
- The pending flag is recomputed when a line is raised or Compare is written, not
  when Status is written or ERET returns. A line raised while interrupts were off
  or masked stays unnoticed after they are enabled
  (`Interrupts.RaisedLineWaits`, `Interrupts.EnablingIsNotNoticed`).
- Branch-likely instructions other than BEQL ignore the result of their slot and
  lose its exception (`Restart.SlotFaultIsPrecise`). A branch in a delay slot
  calls itself without end unless it is a branch-likely that is skipped; the model
  stops there (`Restart.NestedBranchNeverReturns`).
- A TLB write clears two buckets of the cache. That keeps the cache right exactly
  as `Coherence.WriteKeepsCacheExactly` says, entry by entry in
  `Coherence.SmallWriteKeepsCacheExactly`; overwriting a live page larger than
  4 KB, or writing an entry in front of a live one it overlaps, may leave stale
  pages (`Coherence.LargePageGoesStale`, `Coherence.ShadowingGoesStale`).
- A fetch that misses reports the page of the instruction in BadVAddr, not its
  address (`Translation.FetchFaultReports`); partial accesses report the aligned
  word (`Handlers.FaultTurn`).
- The exception level is set before the vector is chosen, so the TLB refill
  vectors are never used (`CpuModel.Cpu.ExceptionVector`). The cached global
  flag is always zero, which is sound: global pages are cached per address space.
- Callbacks that after every firing leave some timer armed for no later than the
  present keep the timer loop busy for ever (`Timers.RearmingForNowNeverEnds`);
  if they stop doing so, it ends (`Timers.RearmingForLaterEnds`).
- Reception overwrites the end of Ethernet frames of 61 to 63 bytes
  (`Ethernet.ReceptionKeepsFrame`), so two guests can exchange such frames only if
  their tail happens to equal the check sequence (`Ethernet.GuestToGuest`).
- The comments of the NAND device list copy-back as supported, but it copies
  nothing (`NandOperations.CopyBackRuns`, `CopyBackExact`). A page opened before
  its block was created stays blank (`StaleWindow`); a second random output and a
  second status read leave what the code provides for (`SecondRandomOutputStops`,
  `PollingTwiceLeavesTheStatusByte`). Programming overwrites bytes instead of
  clearing bits (`ProgrammingOnlyClears`).
- An image that brings its own spare areas is written over as many blocks as its
  size would need without them, and so may blank blocks behind its end
  (`NandImage.SpareImageOverruns`).
- An acknowledgement that arrives together with characters read ahead is not seen
  by the sender of packets, which reads past them (`Gdb.LostAnswer`); its answers
  are those of its peer when nothing was read ahead (`Gdb.AnswersAlwaysCount`).
- The terminal's `vtty_is_full` reports an empty buffer
  (`Vtty.Terminal.IsFull`), a new connection starts in the middle of a command and
  gets the first item but doubled IACs wrong (`Vtty.FirstNegotiationIsStored`,
  `Vtty.FirstItem`, `Vtty.NewConnectionIsRight`), subnegotiations with short
  parameters lose their framing (`Vtty.SubnegotiationIsSkipped`), and a doubled
  IAC among the parameters is taken for the end of the subnegotiation or for the
  start of a command (`Vtty.DoubledIacEndsSubnegotiation`).
- The clock's calendar has a leap year every fourth year, 2100 included; its
  register is right until then (`Rtc.ClockIsGregorian`).

## Model

| member | source | states |
|---|---|---|
| CpuModel.Cpu.Run | emulator/mips/mips64_fdd.c:127-213 | Over every safe run of ticks, interrupt lines raised and lowered, and cache rebuilds, the emulator with its TLB cache, fetch-page pointer and packed device addresses is in exactly the state of the machine that translates and fetches afresh each time. |
| CpuModel.Cpu.RunWedged | emulator/mips/mips64_fdd.c:76-96 | Once a faulting fetch has left an empty page pointer for the very page control continues in, no event ever moves the program counter or touches memory again. |
| Restart.FetchFaultWedges | emulator/mips/mips64_fdd.c:76-96 | A faulting fetch, of an instruction or of a delay slot, leaves the processor able to go on if and only if control goes on outside the page last fetched from: at the exception vector, or at the target of a branch that ignores its slot. |
| Coherence.HitIsTranslation | emulator/memory/mips64_memory.c:2454-2469 | A cache bucket that passes the hit test names the host address that translating the page afresh would name, for reads and for writes. |
| Coherence.FilledBucket | emulator/memory/mips64_memory.c:1154-1193 | Filling a bucket from a completed look-up makes it a right bucket. |
| Coherence.PageTranslation | emulator/mips/mips64_cp0.c:335-398 | For every legal page size the entry translates as the architecture says: the half is chosen by the bit above the page offset, and the whole offset within the page is added to the frame. |
| Coherence.OverlapExact | emulator/mips/mips64_cp0.c:335-398 | Two entries of any page sizes overlap if and only if some page pair and address space identifier match both. |
| Coherence.LookupAfterWrite | emulator/mips/mips64_cp0.c:228-253 | A live mapping whose bucket is not cleared by overwriting entry i is translated the same way after a write that overwrites no live large page and shadows no live entry. |
| Coherence.BucketAfterWrite | emulator/mips/mips64_cp0.c:206-224 | Every right bucket that the two invalidations leave alone is still right after a TLB write that keeps the cacheable mappings. |
| Coherence.WriteKeepsCacheExactly | emulator/mips/mips64_cp0.c:228-253 | A TLB write keeps every right bucket right, whatever the cache holds, if and only if every mapped address whose page may be cached and whose bucket is not cleared translates as before. |
| Coherence.SmallWriteKeepsCacheExactly | emulator/mips/mips64_cp0.c:228-253 | With 4 KB pages and no live entry shadowed, a condition on entries: exactly when each later half that the new entry overlaps translates the same under it or has its bucket cleared. |
| Coherence.SafeWriteKeepsMappings | emulator/mips/mips64_cp0.c:228-253 | Overwriting no live large page and shadowing no live entry is enough for that. |
| CpuModel.UnmappedCodeStays | emulator/mips/mips64_fdd.c:76-96 | Code in the unmapped segments keeps its place under every change of TLB and address space. |
| Coherence.SmallPageInvalidated | emulator/mips/mips64_cp0.c:206-224 | For a 4 KB page both halves of the overwritten entry, when valid, have their buckets cleared. |
| Coherence.LargePageGoesStale | emulator/mips/mips64_cp0.c:206-224 | An instance: overwriting a larger page leaves each of its odd 4 KB pages in the cache, still hit and still naming the old frame. |
| Coherence.ShadowingGoesStale | emulator/mips/mips64_cp0.c:228-253 | An instance: writing an entry before a live one it overlaps takes that page over in the TLB while the cache still answers with the old frame. |
| CpuModel.UnpackUndoesPack | emulator/memory/mips64_memory.c:2522-2529 | The 6-bit device number and 26-bit offset packed into one word come back unchanged for every page of every bound device. |
| CpuModel.Cpu.constructor | emulator/mips/mips64.c:99-129 | Reset gives the reset state of the uncached machine with both caches empty and consistent. |
| CpuModel.Cpu.RecordException | emulator/mips/mips64.c:186-207 | EPC and BD are written only when the exception level was clear; the code and the level always are. |
| CpuModel.Cpu.ExceptionVector | emulator/mips/mips64.c:207-257 | With the exception level already set, the vector is the general or the interrupt one; the refill vectors are out of reach. |
| CpuModel.Cpu.TriggerException | emulator/mips/mips64.c:176-263 | Raising an exception refines the machine's Raise and leaves the caches consistent. |
| CpuModel.Cpu.AccessSpecial | emulator/memory/mips64_memory.c:43-106 | A failed access records BadVAddr, Context and EntryHi and raises the exception the machine raises. |
| CpuModel.Cpu.ExecEret | emulator/mips/mips64.c:278-296 | ERET refines ReturnFromException: the level cleared, the link bit cleared, control at EPC or ErrorEPC. |
| CpuModel.Cpu.UpdateFlag | emulator/mips/mips64.c:148-173 | The pending flag and Cause.IP become what the machine's rule makes of Status and the raised lines. |
| CpuModel.Cpu.ServiceIrq | emulator/mips/mips64_fdd.c:156-160 | A pending interrupt is serviced as the machine services it. |
| CpuModel.Cpu.RaiseIrq | emulator/mips/mips64.c:341-349 | The line is up afterwards and nothing else changes; the event that raises a line calls this and then updates the pending flag, as the board does. |
| CpuModel.Cpu.LowerIrq | emulator/mips/mips64.c:352-362 | Lowering a line gives the machine's state after LowerLine. |
| CpuModel.Cpu.TlbLookup | emulator/mips/mips64_cp0.c:335-398 | The linear scan finds the first matching entry and its even or odd half, as the recursive specification does. |
| CpuModel.Cpu.ExecTlbp | emulator/mips/mips64_cp0.c:163-198 | Index receives the first match of EntryHi, or the miss mark. |
| CpuModel.Cpu.ExecTlbr | emulator/mips/mips64_cp0.c:301-331 | TLBR loads the entry at Index with its global flag put back, and changes nothing for an index out of range. |
| CpuModel.Cpu.UnmapTlbEntry | emulator/mips/mips64_cp0.c:206-224 | Exactly the buckets of the two halves of the entry are cleared, each only if valid. |
| CpuModel.Cpu.ExecTlbw | emulator/mips/mips64_cp0.c:228-253 | A TLB write that keeps the cacheable mappings refines the machine's and keeps every cache bucket right. |
| CpuModel.Cpu.SetReg | emulator/mips/mips64_cp0.c:79-148 | MTC0 refines the machine's register write, the Config registers with their read-only bits and failing selectors included; an address-space change that leaves the code page where it was keeps the fetch page right. |
| CpuModel.Cpu.MapPage | emulator/memory/mips64_memory.c:1154-1193 | A translated page becomes a right cache entry when memory owns it, a packed device address when a device does, and a failure when nothing does. |
| CpuModel.Cpu.SlowLookup | emulator/memory/mips64_memory.c:2360-2452 | The slow path finds the place translation gives, or raises the exception of the miss, invalid or modified case. |
| CpuModel.Cpu.AccessPage | emulator/memory/mips64_memory.c:2483-2542 | Through the cache or not, a page access finds the place, or takes the exception, of the uncached machine. |
| CpuModel.Cpu.Load | emulator/memory/mips64_memory.c:1224-1340 | Loads of every size and sign refine the machine's load, through memory and through device handlers. |
| CpuModel.Cpu.LoadPartial | emulator/memory/mips64_memory.c:1497-1641 | LWL and LWR refine the machine's partial load. |
| CpuModel.Cpu.Store | emulator/memory/mips64_memory.c:1386-1460 | Stores of every size refine the machine's store. |
| CpuModel.Cpu.StorePartial | emulator/memory/mips64_memory.c:1716-1860 | SWL and SWR refine the machine's read, merge and write back. |
| CpuModel.Cpu.LoadLinked | emulator/memory/mips64_memory.c:1948-1973 | LL sets the link bit only when the load completed. |
| CpuModel.Cpu.StoreConditional | emulator/memory/mips64_memory.c:1976-2001 | SC refines the machine's: the access is resolved first, the store and the result follow the link bit. |
| CpuModel.Cpu.ExecMem | emulator/mips/mips64_fdd.c:63-73 | The link bit is cleared before every memory operation that does not keep it, then the operation refines the machine's. |
| CpuModel.Cpu.FetchInstruction | emulator/mips/mips64_fdd.c:76-96 | The word fetched through the page pointer is the word now at the translated address; a failed look-up empties the pointer but keeps the page number. |
| CpuModel.Cpu.SoftFpu | emulator/mips/mips64.c:267-273 | A floating-point instruction raises coprocessor unusable exactly as in the machine. |
| CpuModel.Cpu.ExecSystem | emulator/mips/mips64_codetable.h:1587-1615 | Coprocessor 0, ERET, SYSCALL and BREAK instructions refine the machine's. |
| CpuModel.Cpu.ExecInsn | emulator/mips/mips64_fdd.c:100-124 | Every decoded instruction refines the machine's Execute and keeps both caches consistent. |
| CpuModel.Cpu.ExecSlot | emulator/mips/mips64_fdd.c:216-235 | A delay slot is fetched and executed as in the machine, across page boundaries too. |
| CpuModel.Cpu.ExecBranch | emulator/mips/mips64_codetable.h:102-154 | Branches and jumps link, decide, run the slot and move the program counter as in the machine, including the forms that ignore the slot's result. |
| CpuModel.Cpu.Step | emulator/mips/mips64_fdd.c:127-190 | One turn of the main loop refines one step of the machine. |
| CpuModel.Cpu.Invalidate | emulator/memory/mips64_memory.c:2080-2083 | A rebuild empties the cache and changes nothing the machine can see. |
| CpuModel.EventKeepsReady | emulator/mips/mips64_fdd.c:127-190 | Whether the page pointer is empty follows from the machine alone, and a run that leaves the faulting page never wedges. |
| Flow.StraightLine | emulator/mips/mips64_fdd.c:127-190 | Over n ticks from pc the machine runs exactly the n instructions that lie in memory at pc, pc+4, ... and complete, in that order and nothing else, and ends with pc 4n bytes on. |
| Flow.StraightComputation | emulator/mips/mips64_fdd.c:127-190 | n computing instructions in memory from pc on are computed in order by n ticks; only registers and pc have changed. |
| Flow.TurnRuns | emulator/mips/mips64_fdd.c:166-183 | The word in memory at pc is the instruction that runs; if it completes, the next one is four bytes on. |
| Flow.BranchTurn | emulator/mips/mips64_codetable.h:102-860 | A branch writes pc+8 to its link register, decides by its test on registers or signed numbers, and goes on at pc+4 plus its displacement, at pc+8, at the target in the 256 MB region, or at the register; its slot runs first unless it is a branch-likely that is not taken. |
| Flow.SlotTurn | emulator/mips/mips64_fdd.c:216-235 | The slot is the instruction in memory four bytes on, run at the pc of the branch. |
| Flow.NestedBranchTurn | emulator/mips/mips64_codetable.h:102-154 | A branch in a slot moves pc itself if it is skipped, and never comes back otherwise. |
| Flow.StoppedStays | emulator/mips/mips64_fdd.c:127-150 | A stopped machine stays as it is. |
| Handlers.WhereControlGoes | emulator/mips/mips64_fdd.c:100-124 | For every instruction that is neither a branch nor a memory instruction: pc+4, or EPC or ErrorEPC with its level cleared, or the vector with cause 8, 9, 11 or 13 and EPC and BD as they should be. |
| Handlers.FaultTurn | emulator/mips/mips64_fdd.c:166-183 | A load or store that faults leaves the report of the address looked up and the note of the attempt, a store a broken link besides; partial accesses look up the aligned word. |
| Handlers.InterruptTurn | emulator/mips/mips64.c:176-263 | A pending interrupt is taken, at its own vector if Cause.IV is set, if and only if IE is set, no level is, and a line is up and unmasked; EPC names the next instruction. |
| Handlers.Refill | emulator/mips/mips64_cp0.c:228-298 | After a TLB miss, any handler run that keeps EntryHi and ends in TLBWR and ERET leaves an entry that holds the missed address under the same identifier; if no other does, the repeated access goes where the EntryLo it wrote says. |
| Handlers.AtomicUpdate | emulator/memory/mips64_memory.c:1948-2001 | LL, any run that keeps the link, and SC of the loaded word plus k leave that sum at the address, no other byte changed, and SC returns 1. |
| Translation.MisalignedFaults | emulator/memory/mips64_memory.c:43-106 | A misaligned access takes exception 4 or 5, with BadVAddr, EntryHi, Context and Cause naming it and everything else kept. |
| Translation.MissFaults | emulator/memory/mips64_memory.c:2360-2452 | An aligned access to a mapped address that no entry holds takes exception 2 or 3, reported likewise. |
| Translation.FirstEntryDecides | emulator/memory/mips64_memory.c:2360-2452 | The first entry that holds the address decides by its half: exception 2 or 3 if invalid, 1 for a store if not dirty, and otherwise the byte of the device that owns frame plus page offset is reached. |
| Translation.DirectAccess | emulator/memory/mips64_memory.c:2360-2380 | In 0x80000000 to 0xBFFFFFFF an aligned access reaches the physical address modulo 0x20000000. |
| Translation.FetchReads | emulator/mips/mips64_fdd.c:76-96 | The word fetched is the one whose four bytes, in the byte order of the guest, lie in memory at the translated address. |
| Translation.FetchFaultReports | emulator/mips/mips64_fdd.c:76-96 | A fetch that finds no valid entry takes exception 2; BadVAddr names the page of the instruction, not its address. |
| Registers.WriteReads | emulator/mips/mips64_cp0.c:79-148 | The register MTC0 writes holds, bit by bit, the word it was given, and every other register what it held. |
| Registers.ConfigWrite | emulator/mips/mips64_cp0.c:126-140 | Of the Config registers 0 can be written in its low two bits and 7 whole; the others stop the emulator. |
| Registers.CompareWrite | emulator/mips/mips64_cp0.c:113-121 | Writing Compare takes line 7 down, copies the lines to Cause and recomputes the pending flag. |
| Registers.LinesMove | emulator/mips/mips64.c:341-362 | Raising a line sets exactly its bit and recomputes the flag; lowering clears exactly its bit. |
| Registers.ProbeFinds | emulator/mips/mips64_cp0.c:163-198 | TLBP leaves in Index the first entry that holds the address in EntryHi, or the miss mark. |
| Registers.WritesEntry | emulator/mips/mips64_cp0.c:228-298 | TLBWI writes the entry the registers describe at Index, or at the random index after a failed probe, TLBWR at the random index; every other entry stays. |
| Registers.ReadsEntry | emulator/mips/mips64_cp0.c:301-331 | TLBR loads the fields of the entry at Index, its global flag into both EntryLo, and no other register. |
| Registers.CauseIsWord | emulator/mips/mips64.c:148-207 | The fields of Cause are the bits of its word: code 2 to 6, lines 8 to 15, IV 23, CE 28 and 29, BD 31. |
| Registers.StatusIsWord | emulator/mips/mips64.c:148-207 | The fields of Status are the bits of its word: IE, EXL and ERL 0 to 2, the mask 8 to 15, BEV 22. |
| Registers.ResetIs | emulator/mips/mips64.c:99-129 | Reset leaves the registers zero, nothing pending and the program counter at the entry point. |
| Registers.ResetWords | emulator/mips/mips64.c:99-129 | Reset leaves BEV alone set in Status, and the identification and Config words of the board. |
| Registers.ResetMisses | emulator/mips/mips64.c:120-125 | After reset every access to a mapped address misses. |
| Runs.NestedExceptionsKeepState | emulator/mips/mips64.c:176-263 | In a handler that writes none of Status, Cause and EPC, no run of any length, nested exceptions included, changes EPC, BD or Status. |
| Runs.ReturnRestores | emulator/mips/mips64.c:278-296 | An exception, any such handler run and ERET put control back where the exception hit and Status back to what it was. |
| Runs.LinkBitIsHistory | emulator/memory/mips64_memory.c:1948-2001 | Over every run the link bit is set if and only if, in the history of what ran, some LL completed and no store, partial store, CACHE operation or ERET ran after it, completed or not. |
| Runs.StoreConditionalExact | emulator/memory/mips64_memory.c:1976-2001 | At the end of any run, if the history leaves the link alive SC stores and returns 1 at an address in memory and faults without a store where the address faults; if not, it returns 0 at every address, faulting ones included, and changes nothing else. |
| Runs.LinkGuardsMemory | emulator/mips/mips64_fdd.c:63-73 | If at the end of a run the history leaves the link alive and neither an LL nor a successful SC completed during it, guest stores left memory unchanged. |
| Runs.ReadThenWriteRestores | emulator/mips/mips64_cp0.c:301-331 | In every state any run reaches from reset, TLBR then TLBWI at the same index restores the identical entry. |
| Runs.ProbeAgreesWithTranslation | emulator/mips/mips64_cp0.c:163-198 | TLBP and address translation find the same first entry for every address of the probed pair, or both miss. |
| Runs.RunFollows | emulator/mips/mips64_fdd.c:127-213 | Every run relates its end state to its start by what ran in between: saved exception state, link bit and stored entries. |
| Restart.SlotFaultIsPrecise | emulator/mips/mips64_codetable.h:102-154 | A fault in a delay slot leaves EPC at the branch, the level set, memory as it was and control at the general vector; only the branch-likely forms other than BEQL lose it and go on at their target, and only BREAK and traps leave BD clear. |
| Restart.SlotFaultRestarts | emulator/mips/mips64_fdd.c:216-235 | After any handler run that keeps EPC, Status and the branch's sources, ERET returns to the branch, which takes the same decision to the same target, even if its link register is a source. |
| Restart.NestedBranchNeverReturns | emulator/mips/mips64_fdd.c:216-235 | A branch in a delay slot enters its own slot at every depth if and only if it is not a branch-likely that is skipped, and the machine stops exactly then. |
| Restart.ExecuteInterrupts | emulator/mips/mips64.c:176-263 | Any instruction that turns normal flow off and leaves the exception level set has recorded EPC, BD and the vector of a clean exception. |
| Restart.InterruptsAreGated | emulator/mips/mips64.c:334-338 | A pending interrupt is taken if and only if IE is set, EXL and ERL are clear and an unmasked line is up; otherwise the turn changes only the copy of the lines. |
| Interrupts.RaisedLineWaits | emulator/mips/mips64.c:148-173 | Raising a line sets the pending flag if and only if interrupts are then enabled and the lines unmasked; otherwise nothing shows but the copy of the lines in Cause: the machine runs on, Status writes and ERETs included, as it would from there with no line up, until a line is raised again or Compare is written. |
| Interrupts.LinesAreInvisible | emulator/mips/mips64.c:334-362 | Over every run without a raised line or a write of Compare a clear flag stays clear, and runs that differ in the lines alone differ in nothing else at the end. |
| Interrupts.EnablingIsNotNoticed | emulator/mips/mips64_cp0.c:79-148 | Writing Status or returning by ERET so that a raised line is accepted leaves the flag clear. |
| Interrupts.ExecuteBlind | emulator/mips/mips64_fdd.c:100-124 | No instruction but a write of Compare looks at the lines or sets the flag. |
| Unaligned.LoadPair | emulator/memory/mips64_memory.c:1497-1641 | For both byte orders and every alignment, page crossings included, LWL then LWR loads exactly the four bytes at the address and changes nothing else. |
| Unaligned.StorePair | emulator/memory/mips64_memory.c:1716-1860 | SWL then SWR writes exactly the four bytes at the address and no other byte of memory. |
| Unaligned.StoreThenLoad | emulator/memory/mips64_memory.c:1497-1860 | Storing a register unaligned and loading it back returns the register. |
| Unaligned.StorePartBytes | emulator/memory/mips64_memory.c:1716-1787 | Byte by byte, which part of the aligned word one partial store replaces and with which register byte. |
| Unaligned.LoadPartBytes | emulator/memory/mips64_memory.c:1568-1641 | Byte by byte, which register bytes one partial load replaces and with which byte of the word. |
| Unaligned.DistinctBytes | emulator/memory/mips64_memory.c:2483-2542 | Four nearby bytes never share a host address, whatever pages and frames they are on. |
| Aligned.StoreThenLoad | emulator/memory/mips64_memory.c:1224-1460 | A stored byte, halfword or word comes back sign-extended by LB and LH, zero-extended by LBU and LHU, and whole by LW, LWU and LL, in both byte orders, and no other byte of memory changes. |
| Aligned.LoadDelivers | emulator/memory/mips64_memory.c:1224-1340 | Every load from memory delivers the number its bytes stand for in the guest's byte order, extended by sign or zero as its name says; LL delivers the whole word and sets the link. |
| Aligned.StoreLeaves | emulator/memory/mips64_memory.c:1386-1460 | A store leaves the low bytes of the register at the address in the guest's byte order, and every other byte alone. |
| Aligned.LoadAsksDevice | emulator/memory/mips64_memory.c:1224-1340 | A load from a device is one call of its handler with offset and size, and delivers the extended answer. |
| Aligned.StoreTellsDevice | emulator/memory/mips64_memory.c:1386-1460 | A store to a device is one call with the low bytes of the register, and one poke if the device opens a window. |
| Aligned.PartialAsksDevice | emulator/memory/mips64_memory.c:1497-1641 | LWL and LWR ask a device for the whole word; they leave the register alone if the handler supplied the value and merge it if it opened a window. |
| Aligned.PartialTellsDevice | emulator/memory/mips64_memory.c:1716-1860 | SWL and SWR hand a device the whole register and poke the merged word if it opened a window. |
| Aligned.CacheRuns | emulator/mips/mips64_fdd.c:63-73 | CACHE breaks the link and does nothing else. |
| Timers.TimerList.Del | emulator/utils/vp_timer.c:46-65 | The list in memory becomes the list without the timer, still acyclic, distinct and sorted. |
| Timers.TimerList.Mod | emulator/utils/vp_timer.c:69-91 | The timer is taken out and put behind every entry that expires no later. |
| Timers.InsertAt | emulator/utils/vp_timer.c:69-91 | An entry is put directly behind all that expire no later, so that timers of equal expiry keep the order in which they were armed. |
| Timers.TimerList.Expired | emulator/utils/vp_timer.c:104-109 | Looking at the head alone is true if and only if some active timer is due. |
| Timers.TimerList.RunTimers | emulator/utils/vp_timer.c:111-126 | Running the list terminates and computes RunDue, with callbacks that edit the list while it runs. |
| Timers.RunFiresTheDue | emulator/utils/vp_timer.c:111-126 | Exactly the timers due at the start that no earlier callback touched fire, in order of expiry and first come first served, and none due is left. |
| Timers.ApplyDue | emulator/utils/vp_timer.c:69-91 | Callbacks that re-arm for later only remove entries from the due front, and keep the list sorted and distinct. |
| Timers.DueIsAllDue | emulator/mips/mips64_hostalarm.c:63-74 | The entries up to the first that is not due are all the due ones. |
| Timers.PeriodicTimersAllFire | emulator/utils/vp_timer.c:111-126 | If callbacks touch only timers that have fired, every due timer fires once. |
| Timers.RearmingForNowNeverEnds | emulator/utils/vp_timer.c:111-126 | With callbacks that each leave some timer, their own or another and at whatever time, armed for no later than now, the loop still has a due timer to fire after any number of turns. |
| Timers.RearmingForLaterEnds | emulator/utils/vp_timer.c:111-126 | If callbacks re-arm for no later than now only during some number of firings, the loop ends. |
| Timers.DueAfterTurn | emulator/utils/vp_timer.c:111-126 | After one turn a timer is due if and only if the callback left one armed for no later than now or left one of the due ones alone. |
| Timers.ApplyMembers | emulator/utils/vp_timer.c:46-91 | After any callback exactly those entries are active that its last action on their timer armed, or that were active and it did not touch. |
| Crc32.CrcTable.constructor | emulator/utils/crc.c:81-98 | Every table entry is eight turns of the bit-serial register. |
| Crc32.CrcTable.Compute | emulator/utils/crc.h:48-59 | The table-driven loop computes the complement of the bit-at-a-time polynomial register for every buffer. |
| Crc32.TableStep | emulator/utils/crc.h:48-59 | One look-up does eight turns of the register. |
| Crc32.BurstDetected | emulator/utils/crc.h:48-59 | Any change within four consecutive bytes of any message changes the check value. |
| Crc32.ResidueConstant | emulator/device/dev_cs8900.c:473-481 | A message followed by its check value, low byte first, always leaves the register at 0xDEBB20E3. |
| Ethernet.Controller.Transmit | emulator/device/dev_cs8900.c:447-484 | What is sent is the frame, padded to 60 bytes and followed by its check sequence as the command bits ask. |
| Ethernet.Controller.Receive | emulator/device/dev_cs8900.c:400-435 | With the receiver on, the completed frame reaches the guest's buffer if and only if it passes the address filter and is not too long; otherwise buffer and length stay as they were. |
| Ethernet.Controller.ForUs | emulator/device/dev_cs8900.c:322-372 | The branches of the address filter decide as the filter says: promiscuous, broadcast, multicast, and one address only if the filter asks for it. |
| Ethernet.GuestToGuest | emulator/device/dev_cs8900.c:400-484 | What one guest sends another receives in the same form whatever the padding bits, and intact unless the frame is 61 to 63 bytes long and its tail differs from the check sequence written there. |
| Ethernet.ShortFramesPassTheCheck | emulator/device/dev_cs8900.c:461-484 | Every padded short frame is 64 bytes long, begins with the guest's data and passes the receiver check of clause 3.2.9 of IEEE 802.3-2008. |
| Ethernet.OtherForms | emulator/device/dev_cs8900.c:458-484 | Frames over 60 bytes and frames with padding off go out as they are; with the check sequence inhibited a short frame goes out padded to 60 bytes, otherwise to 64. |
| Ethernet.FilterDecides | emulator/device/dev_cs8900.c:322-372 | Promiscuous mode takes every frame; otherwise broadcasts, other group addresses and single addresses pass by their own bits, a single address without its bit always. |
| Ethernet.DamageIsNoticed | emulator/device/dev_cs8900.c:461-484 | No change within four consecutive bytes of such a frame passes the check. |
| Ethernet.ReceptionKeepsFrame | emulator/device/dev_cs8900.c:414-429 | A received frame keeps its bytes if and only if it is not 61 to 63 bytes long or its bytes from 60 on are those of the check sequence that overwrites them. |
| Nand.WritePage | emulator/device/dev_nand_flash_1g.c:121-139 | Programming replaces every byte of one page for which the buffer does not hold 0xFF, and nothing else of the block. |
| Nand.Fill | emulator/device/dev_nand_flash_1g.c:114-117 | Memory is blanked. |
| Nand.NandFlash.constructor | emulator/device/dev_nand_flash_1g.c:415-517 | The blocks with files are mapped, the shared blank block and the page buffer hold 0xFF. |
| Nand.NandFlash.Materialise | emulator/device/dev_nand_flash_1g.c:76-98 | A missing block gets blank memory of its own; what the blocks hold does not change. |
| Nand.NandFlash.TakeCommand | emulator/device/dev_nand_flash_1g.c:161-354 | Each command byte in each mode changes mode, blocks, buffer and read pointer as the state machine says. |
| Nand.NandFlash.TakeAddress | emulator/device/dev_nand_flash_1g.c:380-409 | The five address cycles build column and row, three of them for an erase. |
| Nand.NandFlash.PutByte | emulator/device/dev_nand_flash_1g.c:370-376 | A data write goes to the page buffer at the column plus the bytes already written. |
| Nand.NandFlash.GetByte | emulator/device/dev_nand_flash_1g.c:356-369 | A data read delivers the next byte behind the read pointer, be it identification, status, a block or the blank block. |
| Nand.NandFlash.Perform | emulator/device/dev_nand_flash_1g.c:153-413 | A run of port accesses on heap-held, lazily created blocks is the run of the state machine, and the shared blank block is never written. |
| NandOperations.ControllerIsPlainStore | emulator/device/dev_nand_flash_1g.c:153-413 | Over every sequence of legal erase, program, random input, read, random output, status, identification, reset and copy-back operations the controller is a plain store of 8192 blocks that always exist: it never stops, and delivers and leaves what the store does. |
| NandOperations.Drive | emulator/device/dev_nand_flash_1g.c:153-413 | The same for the controller with its arrays: outputs and contents after any sequence of operations are those of the plain store. |
| NandOperations.OperationRuns | emulator/device/dev_nand_flash_1g.c:153-413 | One operation, issued as port accesses from the idle state, ends idle with the effect and output of the plain store. |
| NandOperations.EraseProgramRead | emulator/device/dev_nand_flash_1g.c:121-139 | After erase and program, with any random inputs, and any operations on other pages, reading returns exactly the programmed bytes. |
| NandOperations.EraseBlanks | emulator/device/dev_nand_flash_1g.c:211-223 | An erase makes every page of its block read 0xFF. |
| NandOperations.Identification | emulator/device/dev_nand_flash_1g.c:356-369 | The chip answers 0xEC 0xD3 0x51 0x95 0x58 to an identification and 0xC0 to a status read. |
| NandOperations.AbortedRead | emulator/device/dev_nand_flash_1g.c:161-223 | A read given up before it is confirmed leaves no trace. |
| NandOperations.PageKept | emulator/device/dev_nand_flash_1g.c:121-139 | Operations that neither erase its block nor program it leave a page alone. |
| NandOperations.CopyBackRuns | emulator/device/dev_nand_flash_1g.c:241-246 | Copy-back copies nothing: the store is unchanged. |
| NandOperations.CopyBackExact | emulator/device/dev_nand_flash_1g.c:241-246 | Leaving the store unchanged is what copying the page would do if and only if every byte of the source page is 0xFF or equals the byte in its place. |
| NandOperations.StaleWindow | emulator/device/dev_nand_flash_1g.c:224-240 | A driver that opens a page, erases and programs at will and reads on sees the store as it now is if and only if the page's block existed when it was opened or the bytes read are blank. |
| NandOperations.ProgrammingOnlyClears | emulator/device/dev_nand_flash_1g.c:121-139 | Programming gives the bitwise AND of page and buffer, as a chip does, if and only if no byte of the buffer other than 0xFF has a one where the page has a zero. |
| NandOperations.SecondRandomOutputStops | emulator/device/dev_nand_flash_1g.c:175-180 | A second random output after one page read stops the emulator. |
| NandOperations.PollingTwiceLeavesTheStatusByte | emulator/device/dev_nand_flash_1g.c:200-206 | After a status command n reads stay inside the status byte if and only if n is at most one; a new status command allows another. |
| NandImage.CalBlockNo | tool/mknandflash.c:239-247 | First and last block of an image; the 32-bit result wraps for an empty image at block zero. |
| NandImage.ImageWriter.WriteImage | tool/mknandflash.c:298-369 | Every page of every block of the image holds the file's bytes, blanks and the boot marks at their places, and no other block file changes. |
| NandImage.ImageWriter.WriteImageWithSpare | tool/mknandflash.c:251-296 | Blocks hold the file's bytes in order, then blanks; the number of blocks follows from the data size. |
| NandImage.FileByte | tool/mknandflash.c:320-361 | File byte k comes back from block first + k / 0x20000, page k / 0x800 % 64, column k % 0x800. |
| NandImage.PaddingIsBlank | tool/mknandflash.c:320-361 | Every other byte is 0xFF unless it is a boot mark, and those lie in the spare area of the first eight pages. |
| NandImage.MarksAreZero | tool/mknandflash.c:320-361 | The boot marks are zeros in columns 0x802 to 0x804 of the first eight pages of block zero of a boot image, and nowhere else. |
| NandImage.ImageReads | emulator/device/dev_nand_flash_1g.c:224-240 | Reading page p of block q of an installed image through the controller delivers the file's bytes from 0x20000 q + 0x800 p on. |
| NandImage.SpareImageOverruns | tool/mknandflash.c:251-296 | For every non-empty image with spare areas: exactly the written blocks numbered beyond the last needed one are blanked, and there are some if and only if the two numbers differ. |
| NandImage.OverrunOfWholeBlocks | tool/mknandflash.c:251-296 | An image of n whole blocks blanks exactly ceil(n / 32) blocks behind it, one of up to 62 pages none. |
| NandImage.CopyBootPages | emulator/system/jz/soc/jz4740.c:45-50 | The boot copy puts the data areas of the first four pages at the start of RAM and leaves the rest of RAM alone. |
| NandImage.InstallAndBoot | emulator/system/jz/soc/jz4740.c:45-50 | Installing a boot image, starting the chip from its files and booting puts the image's first 0x2000 bytes in RAM. |
| DeviceList.VirtualMachine.Bind | emulator/system/vm.c:329-364 | The device takes the first free slot and its place in address order; with no free slot nothing changes. |
| DeviceList.VirtualMachine.Unbind | emulator/system/vm.c:367-392 | A bound device leaves list and slot through its back pointer; an unbound one is refused and nothing changes. |
| DeviceList.VirtualMachine.Lookup | emulator/device/device.c:59-76 | The scan returns the first device of the list that covers the address. |
| DeviceList.UnbindUndoesBind | emulator/system/vm.c:367-392 | Unbinding a device just bound restores the list. |
| Devices.Dispatch | emulator/memory/mips64_memory.c:1160-1181 | An access reaches the only device that owns the page, with offset exactly the address minus its base, and the place it finds is the one of the machine model. |
| Devices.CallThroughSlot | emulator/device/device.h:58-70 | The device called through the slot number in the packed address is the one the scan found. |
| Devices.OwnerIsFirst | emulator/device/device.c:59-76 | With aligned, disjoint devices the first device to cover an address's page is its owner. |
| Devices.BindKeepsApart | emulator/system/vm.c:329-364 | Binding an aligned device apart from the others keeps all of them aligned and disjoint. |
| Devices.UnbindKeepsApart | emulator/system/vm.c:367-392 | Unbinding does too. |
| Devices.BusFits | emulator/system/vm.c:329-364 | Whatever was bound and unbound, the devices meet what the packed addresses of the memory system need, with distinct slot numbers. |
| Dma.GetHptr | emulator/memory/mips64_memory.c:2614-2635 | A host pointer is found if and only if memory is at the address, and is that memory's. |
| Dma.CopyChunk | emulator/memory/mips64_memory.c:2644-2661 | A chunk inside one page on both sides changes exactly its destination bytes, through whichever memory devices own the pages. |
| Dma.MoveChunk | emulator/memory/mips64_memory.c:2644-2666 | Every chunk is non-empty, stays inside one 4 KB page on both sides, and fails only if one of its ends is not memory. |
| Dma.Transfer | emulator/memory/mips64_memory.c:2638-2667 | The transfer succeeds if and only if both ranges are memory throughout; then it copied exactly len bytes and changed nothing else. |
| Vtty.Terminal.Store | emulator/device/dev_vtty.c:563-582 | A character joins the queue unless 4095 are waiting. |
| Vtty.Terminal.GetChar | emulator/device/dev_vtty.c:884-903 | The oldest character leaves the queue, or -1 is returned. |
| Vtty.Terminal.ReadAndStore | emulator/device/dev_vtty.c:711-864 | Each byte from the client moves the decoder, the queue and the replies as the decoder function says. |
| Vtty.Terminal.Bytes | emulator/device/dev_vtty.c:867-876 | The number of characters waiting, except that an empty buffer counts as 4096. |
| Vtty.Terminal.IsFull | emulator/device/dev_vtty.c:878-881 | True if and only if the buffer is empty. |
| Vtty.Terminal.Serve | emulator/device/dev_vtty.c:711-903 | Any interleaving of input and guest reads is the run of the terminal specification. |
| Vtty.StreamDecodes | emulator/device/dev_vtty.c:711-864 | Any stream of ordinary bytes, doubled IACs, option negotiations, subnegotiations and arrow keys decodes to exactly its data, answers exactly the terminal-type offers and ends where it began (RFC 854, section "TELNET Command Structure"; RFC 855). |
| Vtty.OtherInput | emulator/device/dev_vtty.c:711-864 | What the decoder makes of every other short input in text mode: dropped zeros and line feeds, ESC sequences that are no arrow keys, remote-control characters and unknown commands. |
| Vtty.TerminalType | emulator/device/dev_vtty.c:819-863 | An offer of the terminal type is answered with the request for it; of the answers only one without a name loses its framing. |
| Vtty.PlainInput | emulator/device/dev_vtty.c:563-582 | Without Telnet support every byte joins the queue of at most 4095 characters. |
| Vtty.SubnegotiationIsSkipped | emulator/device/dev_vtty.c:834-863 | A subnegotiation without IAC in its parameters stores nothing, and ends in text mode if and only if its parameters are long enough for the decoder. |
| Vtty.DoubledIacEndsSubnegotiation | emulator/device/dev_vtty.c:796-863 | The first doubled IAC among the parameters of a subnegotiation ends it and is stored as data if and only if the parameters before it are long enough; otherwise nothing is stored and the decoder waits for a command. |
| Vtty.FirstNegotiationIsStored | emulator/device/dev_vtty.c:181-185 | An option negotiation is taken out of the input if and only if the decoder is in text mode; in the middle of a command, where a new connection starts, its first two bytes are stored, the option too if it is an ordinary character, and nothing is answered. |
| Vtty.FirstItem | emulator/device/dev_vtty.c:181-185 | What a new connection makes of the first item: an ordinary character is swallowed, and taken for a command if its code is one; a doubled IAC is stored but leaves the decoder waiting for a command; an arrow key is stored as two characters; a negotiation or subnegotiation is stored as data. |
| Vtty.NewConnectionIsRight | emulator/device/dev_vtty.c:711-864 | A new connection delivers the right data at every point of a well-formed stream if and only if the stream holds nothing but doubled IACs. |
| Vtty.DeliversDecodedStream | emulator/device/dev_vtty.c:563-582 | Whatever the order of arrivals and reads, the guest receives the decoded stream in order and without loss if and only if the buffer never overflows. |
| Gdb.ToHex | emulator/gdb/gdb_interface.c:155-161 | A hexadecimal digit that reads back as the number. |
| Gdb.HexDigits | emulator/gdb/gdb_interface.c:140-161 | The digits are 0 to 9 and a to f, both ways; every other character reads as zero. |
| Gdb.FrameOfOk | emulator/gdb/gdb_interface.c:228-363 | OK goes over the wire as $OK#9a and is answered with a plus sign, with a wrong digit by a minus sign. |
| Gdb.Channel.PutPkt | emulator/gdb/gdb_interface.c:312-363 | The frame is sent once for every answer up to the first plus sign on the socket, past whatever was read ahead, and fails only when the answers end. |
| Gdb.AnswersCountExactly | emulator/gdb/gdb_interface.c:196-215 | With characters read ahead, the sender repeats and succeeds as on all its peer's answers if and only if nothing was read ahead or both parts hold their first plus sign at the same place. |
| Gdb.AnswersAlwaysCount | emulator/gdb/gdb_interface.c:345-358 | It does so whatever is still to come if and only if nothing was read ahead. |
| Gdb.LostAnswer | emulator/gdb/gdb_interface.c:196-363 | The failing input: one read brings a packet and the plus sign behind it; the packet is received and the next one put fails. |
| Gdb.Channel.GetPkt | emulator/gdb/gdb_interface.c:228-287 | However the input was cut into reads, the payload, the acknowledgements and the characters still pending are those of the receiver specification. |
| Gdb.Channel.ReadChar | emulator/gdb/gdb_interface.c:196-215 | The next pending character comes out, with its top bit cleared, whether or not a read is needed and however much it brings; -1 only at the end of the input. |
| Gdb.ReceivesThroughNoise | emulator/gdb/gdb_interface.c:228-287 | After any noise and any number of damaged frames, the next good frame's payload is accepted, each damaged one is refused, and nothing behind the checksum is consumed. |
| Gdb.AcceptedWasFramed | emulator/gdb/gdb_interface.c:228-287 | Whatever is accepted stood between a dollar and a hash sign with matching digits, and every frame before it was refused. |
| Gdb.Exchange | emulator/gdb/gdb_interface.c:228-363 | Over a line that damages the first frames, the other side gets every string of 7-bit characters without a hash sign, and on its answers the sender sends exactly one copy more than were damaged. |
| Gdb.OneChangeIsNoticed | emulator/gdb/gdb_interface.c:242-275 | Changing one character of a payload always changes its checksum. |
| Gdb.ExchangeIsNotNoticed | emulator/gdb/gdb_interface.c:242-275 | Exchanging two neighbouring characters never does. |
| Rtc.Mktime | emulator/system/jz/soc/jz4740_dev_rtc.c:58-82 | The register value is the closed form of the date modulo 2^32, years before 2000 counting as 2000. |
| Rtc.CountedSeconds | emulator/system/jz/soc/jz4740_dev_rtc.c:41-82 | The closed form of the date n seconds after the first of January 2000 is n, under the every-fourth-year rule. |
| Rtc.EveryDateIsCounted | emulator/system/jz/soc/jz4740_dev_rtc.c:41-82 | Every date is reached by counting, after exactly as many seconds as its closed form says. |
| Rtc.SecondsGrow | emulator/system/jz/soc/jz4740_dev_rtc.c:41-82 | Later dates have larger counts. |
| Rtc.RegisterIsExact | emulator/system/jz/soc/jz4740_dev_rtc.c:58-82 | The 32-bit register holds the count if and only if the date lies before 06:28:16 on the sixth of February 2136. |
| Rtc.ClockIsGregorian | emulator/system/jz/soc/jz4740_dev_rtc.c:41-82 | For every Gregorian date the count is the number of seconds that have passed since the first of January 2000 if and only if the date lies before the first of March 2100. |
| Rtc.CalendarsAgree | emulator/system/jz/soc/jz4740_dev_rtc.c:41-56 | The clock's calendar and the Gregorian one name the same date after n seconds exactly as long as that date is. |

## Left out

- Instruction decoding and the instructions that only compute on registers (MFC0 and the HI/LO arithmetic among them) are arbitrary functions of the environment, which see the state and the random number of the step. So is the answer of every device handler, which may depend on the whole history of accesses.
- CpuModel.Cpu.Run: asks that TLB writes keep the cacheable mappings, which is the exact condition for the cache, with page masks that are legal; that TLB and address-space changes leave the page of the running code where it is, for the fetch pointer is never invalidated; that control leave the page of a faulting fetch; and that code lie in memory, for code in a device stops the model.
- CpuModel.Cpu.ExecInsn: the failing assertion of MFC0 on a Config register that does not exist. The registers themselves are those of the Jz4740 board, which has 0, 1 and 7.
- Runs.ReadThenWriteRestores: entries are records of their architected fields; reserved register bits are carried along but given no meaning.
- PageMask values other than the legal 4 KB to 16 MB ones, and any use of Wired; the random number of each step is an input of it.
- Execution out of device memory, debugger accesses, breakpoints, pauses and the host alarm signal; an interrupt raised by a handler in the middle of an instruction is an event of its own after it.
- The 64-bit memory system, LDL, LDR, SDL and SDR, and floating-point registers: dead code, or dispatched to an unknown operation.
- Timers.TimerList.RunTimers: callbacks are functions of the timers fired so far, and re-arm only for later than the present; allocating and freeing timers and the second clock are not modelled.
- Ethernet: the other registers of the CS8900, its event and interrupt bits among them; bounds of the host's packet buffer.
- Nand.NandFlash.Perform: data port accesses are one byte wide; reads that leave the object under the read pointer and writes beyond the page buffer, which the code does not check, are outside the runs considered.
- NandImage.ImageWriter.WriteImage: files are byte sequences shorter than 2 GB, as the tool's signed arithmetic needs; configuration parsing and the order in which images are installed are left out.
- Devices.Dispatch: device handlers themselves, and the allocation of device structures.
- Dma.Transfer: the ranges do not overlap and do not wrap at 2^32; descriptor lists and status bits of the DMA controller are left out.
- Vtty.Terminal.Serve: sockets, the lock around the buffer and the remote-control menu behind the escape character, whose handler is disabled.
- Gdb.Channel.GetPkt: the fixed size of the receive buffer; the packets' meaning, breakpoints and the listening socket.
- Gdb.Channel.PutPkt: a frame must fit the 2000 bytes of its buffer, and writing to the socket does not fail.
- The memory pool, whose accounting is an easier list than the device and timer lists, and the register tables of GPIO, CPM, EMC, LCD, touch screen, UART and watchdog.
