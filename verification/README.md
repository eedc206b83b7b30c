# Verified models of the RSP recompiler, the RDP pipeline and their allocators

This project models parts of the N64 emulator's RSP recompiler and RDP renderer front end in Dafny and proves
properties of the models. Imperative code of the source is modelled by classes and methods with loops, each proved
against a specification on values; the main results are about the specifications and hold for all inputs, all runs
or all interleavings.

* **Reference machine** (`Words`, `Operators`, `Mips`, `Architecture`). What scalar instructions, branches, calls and
  returns do, stated in plain arithmetic and independently of the operators that guest and host share.
* **Scalar recompiler** (`HostOps`, `RegisterCache`, `CacheCorrectness`, `Emitter`, `ScalarCompiler`,
  `RegisterCacheClass`, `BodyCode`). Host code is a list of 64-bit register operations with an execution function. The
  invariant relates cache entries, host registers and guest memory to a machine that has all registers; it is kept by
  every cache call, so it holds through every eviction.
* **Regions and delay slots** (`RegionCode`, `Decoders`, `RegionSim`, `StaticEnd`, `RegionCompiler`, `RegionRun`,
  `HazardRun`). The code around each instruction (labels, local gotos, delay slots, exits, the delay slot carried between
  regions) is a list of control operations. It is proved to simulate a machine that executes one instruction at a time
  and holds a pending branch target.
* **Code cache** (`CodeCache`, `CodeCacheRuns`). Dirty-block marking, invalidation and look-up. The hash is an
  arbitrary function; where it matters, the hypothesis that it does not collide on the contents memory takes is explicit.
* **Data memory** (`Dmem`). Big-endian guest memory in little-endian host words.
* **Slice allocator** (`Legion`, `Arena`, `Slices`, `Hierarchy`, `HierarchyProofs`, `SliceAllocator`). The 32-buddy mask
  allocator, the buckets of an arena, and arenas stacked on arenas. Who holds which slice is made explicit, and every
  operation keeps holders apart. What the backing allocator answers is part of each request.
* **Command ring and timeline** (`CommandRing`, `Timeline`, `CommandProcessor`). Each critical section is a method or a
  step; a schedule picks the thread that moves next.
* **Command parser** (`CommandParser`, with `RdpCommands`), **dump writer** (`DumpFormat`, `DumpReplay`, `DumpWriter`,
  `DumpSession`, with a replayer written for the purpose), **video interface** (`Video`) and **controller pak checksum**
  (`DataCrc`).

Some properties one might expect are false of the code. They are stated with an input and the exact condition:

* A branch by an always-taken test of register 0 is compiled as unconditional even if its delay slot is the target of
  another branch (`RegionRun.HazardExact`; `HazardRun.HazardDiverges` is a run in which code and machine part).
* The run masks of a fresh buddy allocator are all ones; only the first is exact until the first update
  (`Legion.FreshMasks`, `Legion.LegionAllocator.UpdateLongestRun`).
* A scanline latch after the end of latching is accepted, but no longer repeated downwards (`Video.LateLatch`,
  `Video.HeldIff`).
* A frame scanned out inside a command list changes the memories the rest of the list replays in
  (`DumpSession.FrameMovesMemories`, `DumpSession.ListMemories`).
* The parser's buffer is given back only when a transfer ends with a command; it can fill up for good
  (`CommandParser.NothingDroppedIff`, `CommandParser.FullAtOnce`, `CommandParser.FullForever`).

## Model

| member | source | states |
|---|---|---|
| `ScalarCompiler.CompiledCodeIsCorrect` | parallel-rsp/rsp_jit.cpp:957-1466 | for every program of shifts, ALU operations, immediates, compares and branch tests, every choice of where the cache is flushed, every bank of at least three host registers and every start state, running the emitted 64-bit operations leaves in memory exactly the registers 32-bit MIPS interpretation gives |
| `RegisterCacheClass.CompileProgram` | parallel-rsp/rsp_jit.cpp:2025-2294 | the same for the imperative cache: the operations its methods append, for all programs and all host states |
| `BodyCode.BodyIsEmitted` | parallel-rsp/rsp_jit.cpp:944-1466 | what a region assumes of the code of one instruction (registers, branch flag, saved indirect target) is what the register-cache code leaves, whatever state the cache was in |
| `HostOps.Truncates` | parallel-rsp/rsp_jit.cpp:957-1169 | a host operation on suitably extended operands, truncated, is the 32-bit operation; states which extension each operation needs |
| `HostOps.BitsLow` | parallel-rsp/rsp_jit.cpp:1123-1152 | bitwise operations commute with truncation, so they need no extension |
| `HostOps.ShiftLeftLow` | parallel-rsp/rsp_jit.cpp:957-966 | a left shift commutes with truncation |
| `Operators.OperatorMeans` | parallel-rsp/rsp_jit.cpp:957-1169 | what every operator computes on 32 and on 64 bits, in plain arithmetic: shifts as products, quotients and floors of signed quotients, comparisons as orders of the unsigned and signed readings, bitwise operators bit by bit |
| `Architecture.ShiftMeans` | parallel-rsp/rsp_jit.cpp:957-1045 | the six shifts of the reference machine, by a constant or by five bits of a register, as products and quotients by powers of two |
| `Architecture.SpecialMeans` | parallel-rsp/rsp_jit.cpp:1097-1171 | sums, differences, bitwise operators and comparisons of two registers, in plain arithmetic |
| `Architecture.ImmediateMeans` | parallel-rsp/rsp_jit.cpp:1388-1466 | the same for immediates: extended by their sign for sums and comparisons, by zeroes for bitwise operators |
| `Architecture.OnlyTarget` | parallel-rsp/rsp_jit.cpp:946-1466 | no instruction below the coprocessor range changes a register but the one it names, and register 0 never |
| `Architecture.BranchMeans` | parallel-rsp/rsp_jit.cpp:1047-1386 | where each jump and branch of the reference machine leads, and on which comparison |
| `Architecture.StepMeans` | parallel-rsp/rsp_jit.cpp:1084-1096 | what a step does to the rest of the state, and exactly when the machine stops |
| `Architecture.CallMeans` | parallel-rsp/rsp_jit.cpp:1266-1270 | a linking jump or branch leaves the address of the instruction behind its delay slot |
| `Architecture.ReturnMeans` | parallel-rsp/rsp_jit.cpp:1047-1079 | a jump through that register comes, behind its own delay slot, to that instruction |
| `CacheCorrectness.FindSucceeds` | parallel-rsp/rsp_jit.cpp:2055-2064 | with three host registers and at most two locked, a register can always be found |
| `CacheCorrectness.EvictedOk` | parallel-rsp/rsp_jit.cpp:2066-2073 | writing a modified register back changes neither the values the cache stands for nor the bank |
| `CacheCorrectness.LoadOk` | parallel-rsp/rsp_jit.cpp:2083-2124 | a load, through eviction or re-extension if need be, puts the register in the host register returned, truthfully tagged, and moves nothing else |
| `CacheCorrectness.ExtendOk` | parallel-rsp/rsp_jit.cpp:2152-2250 | extending a cached register makes its tag true and keeps its low half |
| `CacheCorrectness.ModifyOk` | parallel-rsp/rsp_jit.cpp:2126-2150 | claiming a register for writing keeps every other register |
| `CacheCorrectness.ImmediateOk` | parallel-rsp/rsp_jit.cpp:2075-2081 | an immediate becomes the register, tagged sign-extended |
| `CacheCorrectness.WriteOk` | parallel-rsp/rsp_jit.cpp:2126-2150 | the operation that computes into a claimed host register gives the MIPS register that value |
| `CacheCorrectness.UnlockOk` | parallel-rsp/rsp_jit.cpp:2252-2258 | unlocking changes one lock count and no value |
| `CacheCorrectness.FlushFromOk` | parallel-rsp/rsp_jit.cpp:2275-2288 | flushing part of the bank writes back what only the cache knew and forgets it |
| `CacheCorrectness.FlushAllOk` | parallel-rsp/rsp_jit.cpp:2260-2273 | after a full flush memory holds every register and nothing is locked |
| `RegisterCacheModel.FindOldest` | parallel-rsp/rsp_jit.cpp:2041-2053 | the victim is the least recently used unlocked register, the first one on a tie; none exactly if all are locked |
| `RegisterCacheModel.LoadIsUse` | parallel-rsp/rsp_jit.cpp:2121-2123 | a load makes its entry, and no other, as young as the clock, which moves on |
| `RegisterCacheModel.ModifyIsUse` | parallel-rsp/rsp_jit.cpp:2145-2148 | so does claiming a register |
| `RegisterCacheModel.VictimIsOldest` | parallel-rsp/rsp_jit.cpp:2041-2053 | a register just used is not evicted while another one can be, and the victim was last used longest ago |
| `RegisterCacheClass.RegisterCache.FindOldestUnlockedRegister` | parallel-rsp/rsp_jit.cpp:2041-2053 | the search loop finds that victim |
| `RegisterCacheClass.RegisterCache.LoadMipsRegister` | parallel-rsp/rsp_jit.cpp:2083-2250 | the imperative load has the effect of the specified one on entries, time stamp and code |
| `RegisterCacheClass.RegisterCache.ModifyMipsRegister` | parallel-rsp/rsp_jit.cpp:2126-2150 | likewise for claiming a register |
| `RegisterCacheClass.RegisterCache.FlushRegisterWindow` | parallel-rsp/rsp_jit.cpp:2260-2273 | the flushing loop has the effect of the specified flush |
| `RegisterCacheClass.RegisterCache.JitInstruction` | parallel-rsp/rsp_jit.cpp:946-1466 | the imperative switch emits what the specified compiler emits |
| `Emitter.TwoRegImmOk` | parallel-rsp/rsp_jit.cpp:1390-1398 | register-immediate operations, under the lock discipline, compute the MIPS value and keep everything else |
| `Emitter.ThreeRegOk` | parallel-rsp/rsp_jit.cpp:1099-1107 | three-register operations likewise, also when operands and target coincide |
| `Emitter.ShiftVarOk` | parallel-rsp/rsp_jit.cpp:990-1045 | variable shifts use the low five bits of the count register |
| `Emitter.NorRegOk` | parallel-rsp/rsp_jit.cpp:1141-1153 | NOR is the complement of OR in all 32 bits |
| `ScalarCompiler.EmitInstrOk` | parallel-rsp/rsp_jit.cpp:946-1466 | the code of any one instruction has exactly that instruction's effect on registers, branch flag, scratch and indirect target |
| `RegionRun.CompiledRunsSimulate` | parallel-rsp/rsp_jit.cpp:1833-1922 | for every instruction memory with no branch in a delay slot and without the shape of HazardExact, and every number of steps, compiled code, crossing regions, local gotos, carried delay slots and exits, is where the one-instruction-at-a-time delay-slot machine is |
| `RegionRun.EasyPrograms` | parallel-rsp/rsp_jit.cpp:1344-1364 | every program without an always-taken test of register 0 and without a branch behind a branch is covered by that |
| `RegionSim.StepOk` | parallel-rsp/rsp_jit.cpp:1863-1914 | the code between two labels is one step of the machine |
| `RegionSim.DelaySlotRuns` | parallel-rsp/rsp_jit.cpp:600-663 | what the code after a delay slot does, in all its forms |
| `RegionSim.ExitRuns` | parallel-rsp/rsp_jit.cpp:673-737 | what the exit code does, in, after and outside a delay slot |
| `RegionSim.EndOfBlockRuns` | parallel-rsp/rsp_jit.cpp:499-533 | running off the end hands a pending branch to the next region |
| `RegionSim.FirstTailOk` | parallel-rsp/rsp_jit.cpp:1893-1903 | a delay slot carried into a region is resolved after its first instruction |
| `RegionSim.LocalTargetMarked` | parallel-rsp/rsp_jit.cpp:1931-1932 | every local goto goes to a label that the marking pass placed, and to the right instruction |
| `Decoders.DecodersAgree` | parallel-rsp/rsp_jit.cpp:109-232 | the three switches that read an instruction word (scanning for the end of a region, marking branch targets, emitting code) agree for every word at every address: the same direct branches with the same targets, by word or by byte address, except the one test that never branches; the same instructions that end a region; the same breaks |
| `Decoders.DecodeRaw` | parallel-rsp/rsp_jit.cpp:1736-1795 | what each of the three reads in the word of an instruction is what the fields of the instruction say |
| `RegionRun.HazardExact` | parallel-rsp/rsp_jit.cpp:1344-1364 | in the delay slot of an always-taken test of register 0, of whatever kind but a branch, reached by somebody else's branch: the compiled code agrees with the machine if and only if the branch of the test leads to the instruction after the delay slot |
| `RegionRun.HazardFails` | parallel-rsp/rsp_jit.cpp:1344-1364 | regions for which it does not agree: word 4 jumps into the delay slot of the test at word 0 |
| `RegionRun.HazardOccurs` | parallel-rsp/rsp_jit.cpp:467-488 | the recompiler builds such a region from every memory with those three instructions |
| `HazardRun.LoopExists` | parallel-rsp/rsp_jit.cpp:1344-1364 | such a memory: those eight words and zeroes |
| `HazardRun.HazardDiverges` | parallel-rsp/rsp_jit.cpp:1344-1364 | a run that gets there: for every memory with eight given words in front, and any registers, compiled code and machine agree for six steps from the entry and part at the seventh, the code at word 6 and the machine at word 2 |
| `RegionCompiler.MarkBlockEntries` | parallel-rsp/rsp_jit.cpp:1736-1795 | the marking loop marks exactly the targets of the region's branches |
| `RegionCompiler.JitRegion` | parallel-rsp/rsp_jit.cpp:1833-1932 | the compiling loop produces the specified region code |
| `StaticEnd.RegionCloses` | parallel-rsp/rsp_jit.cpp:109-232 | the region is not empty, stays in its window and contains the window targets of its conditional branches |
| `StaticEnd.RegionAtOk` | parallel-rsp/rsp_jit.cpp:472-478 | a region is at most two code blocks long and never reaches past the next block |
| `StaticEnd.RegionLocal` | parallel-rsp/rsp_jit.cpp:472-478 | a region depends only on the words of its window |
| `StaticEnd.EndExact` | parallel-rsp/rsp_jit.cpp:109-232 | the region ends behind the first jump or break that nothing before it leads past, delay slot included, or else with the window |
| `StaticEnd.WindowIs` | parallel-rsp/rsp_jit.cpp:472-478 | the window is the block of the entry and the next one, as far as there is one |
| `StaticEnd.AnalyzeStaticEnd` | parallel-rsp/rsp_jit.cpp:109-232 | the scanning loop computes the specified end |
| `CodeCacheRuns.Replay` | parallel-rsp/rsp_jit.cpp:44-81 | in every run of host writes, DMA writes, notifications, run starts and look-ups in which host writes are notified before the next run, without a hash collision among the contents instruction memory takes, every look-up returns the code of its region as memory then is |
| `CodeCacheRuns.MisusedIff` | parallel-rsp/rsp_jit.cpp:44-66 | such runs are exactly those where each run start comes after a notification of all host writes and each look-up while running |
| `CodeCacheRuns.DispatchedMeans` | parallel-rsp/rsp_jit.cpp:467-488 | which code each look-up gets: that of the region at its word, in the memory before it |
| `CodeCacheRuns.LastWritten` | parallel-rsp/rsp_jit.cpp:44-49 | a word of that memory is what was written there last |
| `CodeCache.InjectiveHash` | parallel-rsp/rsp_jit.cpp:467-488 | a hash that tells regions apart has no collisions |
| `CodeCacheRuns.RunProgram` | parallel-rsp/rsp_jit.cpp:1958-1982 | a run through the code cache is, after any number of instructions, where the delay-slot machine is |
| `CodeCache.Cpu.InvalidateImem` | parallel-rsp/rsp_jit.cpp:44-49 | marks exactly the blocks whose own or next block changed |
| `CodeCache.Cpu.InvalidateCode` | parallel-rsp/rsp_jit.cpp:51-66 | drops exactly the pointers of marked blocks, after which every pointer left is right for memory as it is |
| `CodeCache.Cpu.GetJitBlock` | parallel-rsp/rsp_jit.cpp:467-488 | returns the code of the region as memory is, and remembers it |
| `CodeCache.Cpu.DmaWrite` | parallel-rsp/rsp/cp0.cpp:189-197 | a word written by DMA leaves no change unnoticed and makes the run stop |
| `CodeCache.UnmarkedSame` | parallel-rsp/rsp_jit.cpp:48-48 | a region that starts in an unmarked block reads the same words before and after |
| `CodeCache.MarkBits` | parallel-rsp/rsp_jit.cpp:48-48 | the mask expression sets exactly the bits of a block and of the one before it |
| `Dmem.DataMemory.Load` | parallel-rsp/rsp_jit.cpp:799-868 | aligned and unaligned loads return the big-endian value at the wrapped address: its two's-complement value in 32 bits if signed, the number itself if not |
| `Dmem.BigEndian` | parallel-rsp/rsp_jit.cpp:236-270 | big-endian values of one, two and four bytes, byte by byte, with wrapping addresses |
| `Dmem.DataMemory.Store` | parallel-rsp/rsp_jit.cpp:739-794 | aligned and unaligned stores write exactly the big-endian bytes |
| `Dmem.StoreThenLoad` | parallel-rsp/rsp_jit.cpp:236-291 | a store followed by a load returns the truncated value, with its sign if signed |
| `Dmem.AlignedRead` | parallel-rsp/rsp_jit.cpp:834-839 | the flipped aligned host access finds the guest's value |
| `Dmem.AlignedWrite` | parallel-rsp/rsp_jit.cpp:769-774 | the flipped aligned host access writes the guest's bytes |
| `Dmem.WriteElsewhere` | parallel-rsp/rsp_jit.cpp:272-291 | a store leaves every other byte alone |
| `Legion.LegionAllocator.UpdateLongestRun` | parallel-rdp-standalone/util/arena_allocator.cpp:60-70 | mask k marks exactly the starts of runs of k + 1 free blocks, for every length that occurs, and the longest run is the maximal one |
| `Legion.LegionAllocator.Allocate` | parallel-rdp-standalone/util/arena_allocator.cpp:29-51 | takes the lowest run that fits |
| `Legion.LegionAllocator.Release` | parallel-rdp-standalone/util/arena_allocator.cpp:53-58 | gives the blocks back |
| `Legion.LegionAllocator.constructor` | parallel-rdp-standalone/util/arena_allocator.hpp:48-53 | in a fresh allocator all bits of all masks are set, the longest run is 32, and the lowest set bit of every mask is where its run is found |
| `Legion.FreshMasks` | parallel-rdp-standalone/util/arena_allocator.hpp:48-53 | of those masks exactly the first, and no other, marks the starts of runs of its length |
| `Legion.FreeUndoesAllocate` | parallel-rdp-standalone/util/arena_allocator.cpp:29-58 | freeing what was just allocated restores the free mask |
| `Legion.FitsIff` | parallel-rdp-standalone/util/arena_allocator.cpp:60-70 | a run of n blocks exists, and is found, exactly if n is at most the longest run |
| `Arena.RefileOk` | parallel-rdp-standalone/util/arena_allocator.hpp:166-181 | moving a heap when its longest run changes keeps every heap in exactly the right bucket |
| `Arena.FileOk` | parallel-rdp-standalone/util/arena_allocator.hpp:202-211 | so does inserting one |
| `Arena.UnfileOk` | parallel-rdp-standalone/util/arena_allocator.hpp:226-238 | and removing one |
| `Arena.PickOk` | parallel-rdp-standalone/util/arena_allocator.hpp:151-157 | a heap is picked if and only if one has room, and then a tightest one |
| `Hierarchy.Alloc` | parallel-rdp-standalone/util/arena_allocator.hpp:151-214 | allocation through the levels keeps all buckets of all levels in order |
| `HierarchyProofs.AllocOk` | parallel-rdp-standalone/util/arena_allocator.hpp:151-214 | a successful allocation returns blocks nobody holds, at least as many as asked; a failed one changes nothing |
| `HierarchyProofs.AllocFailsIff` | parallel-rdp-standalone/util/arena_allocator.hpp:151-214 | an allocation fails if and only if no heap of its level or above has room for what it would be asked and the backing allocator, asked then, grants no buffer |
| `HierarchyProofs.FreeOk` | parallel-rdp-standalone/util/arena_allocator.hpp:216-253 | freeing, through every heap that becomes wholly free, takes away one holder and keeps all other slices in place |
| `HierarchyProofs.EveryRun` | parallel-rdp-standalone/util/arena_allocator.cpp:72-176 | after every run of allocations and frees, whatever the backing allocator answers each time, slices never overlap, lie in buffers in use, every heap is in exactly one list, no wholly free heap is kept, and nothing is left once all is freed |
| `HierarchyProofs.ServeMeans` | parallel-rdp-standalone/util/arena_allocator.cpp:165-176 | a request gives the next ticket a slice, at least as large as asked, exactly if a level is large enough and not exhausted; a release takes that ticket's slice; nobody else's changes |
| `Slices.UsersNeverOverlap` | parallel-rdp-standalone/util/arena_allocator.cpp:105-114 | slices held by different users never overlap, whatever levels they come from |
| `Slices.InsideBuffer` | parallel-rdp-standalone/util/arena_allocator.cpp:105-114 | every slice lies inside a buffer in use |
| `Slices.NothingLeaks` | parallel-rdp-standalone/util/arena_allocator.hpp:226-240 | when the users hold nothing, no heap and no buffer is held |
| `SliceAllocator.InitSizes` | parallel-rdp-standalone/util/arena_allocator.cpp:116-143 | for every arena size from 2^5 to 2^24 blocks, block sizes start at the requested one, each level's heap fits one heap of the next level, and a heap of the last level is the whole arena |
| `SliceAllocator.InitShifts` | parallel-rdp-standalone/util/arena_allocator.cpp:120-136 | the shifts spread evenly over the levels: each level is the quotient of places by levels above the one below it, or one more, and never more than five |
| `SliceAllocator.SliceAllocator.AllocateAt` | parallel-rdp-standalone/util/arena_allocator.hpp:151-214 | the imperative allocation, which takes blocks through the buddy allocator of each heap and files heaps by its longest run, has the effect of the specified one |
| `SliceAllocator.SliceAllocator.FreeAt` | parallel-rdp-standalone/util/arena_allocator.hpp:216-253 | so has freeing, which gives blocks back through the buddy allocators and tests whether they were full or are empty |
| `SliceAllocator.SliceAllocator.Allocate` | parallel-rdp-standalone/util/arena_allocator.cpp:165-176 | the first level whose heaps are large enough serves a request; none does if it is too large |
| `SliceAllocator.ServeAll` | parallel-rdp-standalone/util/arena_allocator.cpp:116-176 | any series of requests on one allocator, whatever the backing allocator answers: what is held never overlaps and lies within the arena size |
| `CommandRing.CommandRing.Enqueue` | parallel-rdp-standalone/parallel-rdp/command_ring.cpp:71-84 | a message is appended whole behind everything unread, and overwrites nothing unread |
| `CommandRing.CommandRing.Dequeue` | parallel-rdp-standalone/parallel-rdp/command_ring.cpp:105-112 | the oldest message is taken, whole |
| `CommandRing.BlockedProducerFeedsConsumer` | parallel-rdp-standalone/parallel-rdp/command_ring.cpp:74-76 | a producer that waits with a message that fits leaves the consumer something to take |
| `CommandRing.DrainedIff` | parallel-rdp-standalone/parallel-rdp/command_ring.cpp:63-69 | drained means nothing waits and everything taken is completed |
| `CommandProcessor.RunSchedule` | parallel-rdp-standalone/parallel-rdp/command_ring.cpp:86-131 | under any schedule of the three threads on the real ring and queue, waiters see the value of the step system, and drain returns exactly when everything enqueued has been executed |
| `Timeline.PublishedMeansDone` | parallel-rdp-standalone/parallel-rdp/rdp_device.cpp:926-934 | in every interleaving, once the value of a signal is published, every message enqueued before it has been executed, everything handed over to the timeline thread up to the value itself has been performed, fences handed over while the signal was executed included, and a fence behind all rendering of the earlier messages has been waited for |
| `Timeline.WaitedMeansDone` | parallel-rdp-standalone/parallel-rdp/rdp_device.cpp:1053-1074 | a client that asks for a value and later sees it published knows that everything it had enqueued is executed, everything handed over before it asked is performed, and all rendering batched before it asked has been waited for |
| `Timeline.StepKeeps` | parallel-rdp-standalone/parallel-rdp/rdp_device.cpp:1184-1258 | every step of every thread keeps both queues in order and never lowers the published value |
| `Timeline.WorkerKeepsGoing` | parallel-rdp-standalone/parallel-rdp/rdp_device.cpp:1190-1193 | no work is ever taken for the request to stop |
| `Timeline.NeverStuck` | parallel-rdp-standalone/parallel-rdp/worker_thread.hpp:83-124 | while something is unexecuted or unpublished, the command thread or the timeline thread can go on |
| `Timeline.SignalRoundTrip` | parallel-rdp-standalone/parallel-rdp/rdp_device.cpp:1057-1061 | a 64-bit value survives being sent as two words |
| `CommandParser.ParseRun` | parallel-rdp-standalone/parallel_imp.cpp:365-457 | any series of transfers on one parser, from either memory: the processor is given exactly the commands of the accepted transfers taken as one stream, and the unfinished rest is kept; of all transfers, if each one fits the buffer when it comes |
| `CommandParser.NothingDroppedIff` | parallel-rdp-standalone/parallel_imp.cpp:374-376 | the accepted transfers are the whole stream if and only if each one fits; the buffer counts as used until a transfer ends with a command |
| `CommandParser.WholeCommandsFit` | parallel-rdp-standalone/parallel_imp.cpp:445-457 | who ends every transfer with a command, and sends less than the buffer holds at a time, loses nothing |
| `CommandParser.FullForever` | parallel-rdp-standalone/parallel_imp.cpp:374-376 | once the buffer is used up in the middle of a command, every later transfer is dropped |
| `CommandParser.FullAtOnce` | parallel-rdp-standalone/parallel_imp.cpp:374-376 | one transfer does that: as many units as fit, each looking like the beginning of a triangle |
| `CommandParser.ChunksDoNotMatter` | parallel-rdp-standalone/parallel_imp.cpp:411-457 | what the processor is given and what is retained do not depend on how the accepted stream is cut into transfers |
| `CommandParser.CommandsAndTail` | parallel-rdp-standalone/parallel_imp.cpp:411-424 | the commands and the retained tail make up the stream, and the tail is empty or the beginning of one command |
| `CommandParser.CmdLenMeans` | parallel-rdp-standalone/parallel_imp.cpp:39-44 | triangles take four units, eight more for shade, eight for texture, two for depth; textured rectangles two; everything else one |
| `RdpCommands.OpcodeMeans` | parallel-rdp-standalone/parallel_imp.cpp:413-415 | the number of a command is in the six low bits of its first byte, whatever the rest |
| `CommandParser.ForwardedMeans` | parallel-rdp-standalone/parallel_imp.cpp:415-424 | every command from 8 up is forwarded, whole and in its place among the others |
| `CommandParser.TransferMeans` | parallel-rdp-standalone/parallel_imp.cpp:380-408 | a transfer reads consecutive words from its address on, around the end of the memory |
| `CommandParser.OnlyGuestCommands` | parallel-rdp-standalone/parallel_imp.cpp:415-424 | no command below 8 is forwarded, and every forwarded one is whole |
| `CommandParser.ForwardedMayBeEnqueued` | parallel-rdp-standalone/parallel-rdp/command_ring.cpp:71-76 | every forwarded command is accepted by the ring as soon as it has room, and fits the ring when it is empty |
| `CommandParser.Parser.ParseBuffer` | parallel-rdp-standalone/parallel_imp.cpp:411-457 | the parsing loop terminates, passes on exactly the complete commands and keeps the tail |
| `CommandParser.Parser.ProcessCommands` | parallel-rdp-standalone/parallel_imp.cpp:365-457 | one transfer, from either memory: dropped exactly if empty or if it would overflow the buffer, otherwise parsed together with what was retained |
| `DumpWriter.WriteDump` | parallel-rdp-standalone/parallel-rdp/rdp_dump_write.cpp:37-150 | for every series of calls, decoding the file written and replaying it from zeroed memories recovers every call in order, each flush with the full memory |
| `DumpReplay.ReplayRecovers` | parallel-rdp-standalone/parallel-rdp/rdp_dump_write.cpp:81-118 | the same on records: writing only changed blocks loses nothing |
| `DumpFormat.DecodeFileOk` | parallel-rdp-standalone/parallel-rdp/rdp_dump_write.cpp:51-53 | the file header and its records are read back as written |
| `DumpFormat.DecodeEncode` | parallel-rdp-standalone/parallel-rdp/rdp_dump_write.cpp:57-150 | every record decodes uniquely, whatever follows it |
| `DumpFormat.WireFormat` | parallel-rdp-standalone/parallel-rdp/rdp_dump_write.cpp:57-150 | the bytes of every record: its number, its words with the lowest byte first, its data |
| `DumpFormat.HeaderFormat` | parallel-rdp-standalone/parallel-rdp/rdp_dump_write.cpp:51-53 | the bytes of the header |
| `DumpReplay.UpdatesMean` | parallel-rdp-standalone/parallel-rdp/rdp_dump_write.cpp:91-103 | only blocks that changed are recorded, in order, with their place and contents |
| `DumpWriter.RDPDumpWriter.FlushWith` | parallel-rdp-standalone/parallel-rdp/rdp_dump_write.cpp:81-108 | the block loop writes the records of the blocks that differ and makes the shadow copy equal to memory |
| `DumpSession.SessionReplays` | parallel-rdp-standalone/parallel-rdp/rdp_device.cpp:874-897 | replaying a recorded session of commands, register writes and frames makes exactly the calls that were made, one for one and in order: a command with its number and all its words, a full synchronisation as the end of its list; each in the memories of the last frame or first command of a list |
| `DumpSession.RecordSession` | parallel-rdp-standalone/parallel-rdp/rdp_device.cpp:874-897 | the same from the first byte of the file to the last: what is written, decoded and replayed makes those calls in those memories |
| `DumpSession.ListMemories` | parallel-rdp-standalone/parallel-rdp/rdp_device.cpp:876-882 | a command replays in the memories its command list began with, unless a frame was scanned out since |
| `DumpSession.FrameMovesMemories` | parallel-rdp-standalone/parallel-rdp/rdp_device.cpp:1087-1093 | after a frame in an open list the next command of the list replays in the memories of the frame, so in those of its list exactly when they are the same |
| `DumpSession.Recorder.Scanout` | parallel-rdp-standalone/parallel-rdp/rdp_device.cpp:1087-1093 | a frame is recorded behind both memories, whether or not a list is open, and leaves the list as it was |
| `DumpSession.Recorder.EnqueueCommand` | parallel-rdp-standalone/parallel-rdp/rdp_device.cpp:874-897 | the first command of a list is recorded behind both memories, every command with all its words, the last one as the end of the list |
| `Video.LatchRun` | parallel-rdp-standalone/parallel-rdp/video_interface.cpp:1126-1213 | after any sequence of register writes, beginnings, settings, latches, ends and frames: lines up to the last accepted latch have the values of the greatest accepted latch not above them; once latching has ended, all lines have if and only if nothing came late |
| `Video.HeldIff` | parallel-rdp-standalone/parallel-rdp/video_interface.cpp:1191-1213 | nothing came late: the last accepted latch is at the last line, or has the values of the last one before the end |
| `Video.NoneLate` | parallel-rdp-standalone/parallel-rdp/video_interface.cpp:1191-1213 | who latches nothing between an end and the next beginning never comes late |
| `Video.LateLatch` | parallel-rdp-standalone/parallel-rdp/video_interface.cpp:1161-1184 | begin, latch 10, end, set, latch 20, end: the late latch is accepted, and the lines below it keep the values of line 10 |
| `Video.IntendedUse` | parallel-rdp-standalone/parallel-rdp/rdp_device.hpp:189-197 | the documented flow, for all values and lines: global value, first latched value, second latched value; an unflagged register keeps its global value |
| `Video.CallsMean` | parallel-rdp-standalone/parallel-rdp/video_interface.cpp:1161-1189 | a latch is clamped to the last line and ignored unless it moves forward; a frame ends latching until the next beginning |
| `Video.InForceIsGreatest` | parallel-rdp-standalone/parallel-rdp/video_interface.cpp:1161-1184 | which accepted latch that is |
| `Video.VideoInterface.LatchForScanline` | parallel-rdp-standalone/parallel-rdp/video_interface.cpp:1161-1184 | one latch fills the lines since the last one and is accepted exactly if it moves forward |
| `Video.VideoInterface.DecodeViRegisters` | parallel-rdp-standalone/parallel-rdp/video_interface.cpp:177-338 | each of the 288 entries is the decoded line inside the active range and cleared outside; the bounding boxes are the least that contain every line |
| `Video.LineMeans` | parallel-rdp-standalone/parallel-rdp/video_interface.cpp:239-285 | a line begins and ends where its register says, cut to the picture; cutting does not move what a pixel samples; sides not cut shrink by 8 and 7 pixels |
| `Video.VerticalMeans` | parallel-rdp-standalone/parallel-rdp/video_interface.cpp:192-219 | the same vertically, for both standards |
| `Video.FieldsInterleave` | parallel-rdp-standalone/parallel-rdp/video_interface.cpp:314-318 | the two fields read neighbouring scanlines, every second one, from the one the register names on |
| `Video.EffectiveLineBounded` | parallel-rdp-standalone/parallel-rdp/video_interface.cpp:317-326 | for all register contents, both standards and both fields, per-scanline arrays are read within bounds |
| `DataCrc.DataCRC` | simple64-input-qt/main.cpp:317-339 | for every length from 1 the result is the remainder of the message times x^8 divided by x^8 + x^7 + x^2 + 1 over GF(2) |
| `DataCrc.ToBitsAt` | simple64-input-qt/main.cpp:317-339 | bytes are read highest bit first |
| `DataCrc.OneRemainder` | simple64-input-qt/main.cpp:317-339 | there is only one such remainder |
| `DataCrc.CheckedMessage` | simple64-input-qt/main.cpp:317-339 | a message followed by its checksum has checksum zero |
| `DataCrc.ChecksumLinear` | simple64-input-qt/main.cpp:317-339 | checksums of equally long messages add like the messages |

## Left out

- A branch in the delay slot of another branch: the recompiler tries to do something sensible there, but clears the
  register it then stores; the model traps at this point and the simulation excludes such programs.
- Vector, memory and coprocessor instructions inside a region are one arbitrary function of registers and machine state
  that may also ask a move to or from coprocessor 0 to leave the region; data memory is modelled on its own in `Dmem`.
- Opcodes the recompiler aborts on, cycle counting and tracing.
- Lightning, executable memory and its protection: a compiled region is the list of operations it stands for.
- The request for a register when all are locked, which the source asserts never happens, does nothing in the model; the
  emitters are proved never to get there.
- Timeline and ring counters, the allocator's sizes and the video arithmetic are unbounded; their 64-bit and 32-bit
  wrap-around is not modelled (time stamps of the register cache do wrap).
- Condition variables, wake-ups and time-outs are guards of steps; re-initialising a ring is not modelled, and there is
  one client.
- CommandProcessor.RunSchedule: the empty message that ends the command thread is left out, so the threads never stop; the
  notification of an idle command thread is not a message, only its effect is there, a fence handed over at any time.
- Running the command processor without its command thread, and the timeline signalled once per frame by the stream parser.
- Raising interrupts and setting status bits after a full synchronisation.
- DumpSession.Recorder.EnqueueCommand: the wait for the timeline before memory is flushed is left out, and so is the one
  in DumpSession.Recorder.Scanout; what such a wait guarantees is Timeline.WaitedMeansDone.
- SliceAllocator.SliceAllocator.AllocateAt: the lists of an arena are sequences of heap names, not linked nodes, so
  aliasing of list links is not captured; running out of heap nodes is not modelled.
- HierarchyProofs.EveryRun: requests for zero elements are excluded, because the source shifts by minus one for them.
- DumpWriter.RDPDumpWriter.FlushWith: sizes are multiples of the block size; for others the source compares and copies
  past the end.
- Failing writes to the dump file.
- Vulkan, shaders, image stages, the user interface, netplay, cheats and the other tools of the repository.
