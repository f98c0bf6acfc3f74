# A model of the PC emulator, and what is proved of it

The repository emulates an i386 PC: a processor with segmentation, paging, tasks and
interrupts, two cascaded interrupt controllers, a floppy controller with a thread of its
own, a text-mode display, and a small BIOS. This project restates the parts with real
state and real arithmetic in Dafny and proves properties of them, over all inputs, runs and
interleavings. Where the code does not do what its name or the processor's manual suggests,
the code is modelled as it is, and a lemma says exactly when the expectation holds.

How the files fit together:

- `FloppyDrive` is the drive: an odometer of track, head, sector and progress beside a file
  position that is only ever moved relatively. `FloppyProtocol` is the exchange between the
  BIOS on the CPU thread and the controller's worker thread, one shared access per step.
  `FloppyRefinement` is a single-threaded reference machine and the invariant that ties the
  two threads to it; `FloppyProof`, `FloppyTheorems` and `FloppyProgress` prove it for every
  interleaving, and that the exchange ends.
- `Memory` and `Cpu` are registers, segment translation and the stack; `CpuBytes` and
  `TaskBytes` say where descriptors, gates, frames and task contexts are in memory, byte by
  byte, without the functions that read them. `TaskSwitch`,
  `Interrupts`, `InterruptTheorems`, `InterruptNests`, `InterruptLimits` and
  `InterruptEpisodes` are saving and restoring of context. `Paging` is the translation
  cache. `Processor` has the same operations as methods of an object that updates its
  registers and memory in place.
- `Pic`, `PicTheorems` and `PicUnits` are the interrupt controllers; `PicWords` is their
  command words bit by bit and the life of an interrupt from request to end.
- `Alu` and `Strings` (with `StringBytes` and `StringUnits`) are flags, conditions, carry
  chains and the repeated string instructions.
- `Decoder`, `DecoderFields`, `DecoderUnits` and `Addressing` are instruction decoding, its
  encoding spelled out, and effective addresses.
- `Terminal`, `Vga`, `VgaDots` and `VgaUnits` lead from a character written by the BIOS to
  the pixels on the screen. `IoMap` is the lookup of devices by address. `Words` and `Arithmetic` are
  shared. `Witnesses` holds concrete machines: some meet the conditions of the theorems
  about long runs, some show where the code fails.

Each operation is a function on values with its results stated by lemmas; where the program
changes an object or loops, a method does the same in place and is proved equal to the
function. `None` stands for an exception that is thrown or for the program ending itself.

## Model

| member | source | states |
|---|---|---|
| `FloppyDrive.AdvanceIsSuccessor` | src/hardware/floppy_disk/floppy_disk_driver.cpp:88-117 | stepping the odometer is adding one modulo the disk size, with all four fields in range and the file untouched |
| `FloppyDrive.LinearInjective` | src/hardware/floppy_disk/floppy_disk_driver.cpp:88-117 | different settings of the odometer are different offsets |
| `FloppyDrive.SeekLandsIff` | src/hardware/floppy_disk/floppy_disk_driver.cpp:119-146 | the relative seek lands on the absolute sector exactly when the file stood at the base of the remembered sector (unless the file refuses a negative position) |
| `FloppyDrive.SeekOvershoots` | src/hardware/floppy_disk/floppy_disk_driver.cpp:119-146 | a seek from mid-sector is off by exactly the progress it ignores |
| `FloppyDrive.CommandKeepsAlignedIff` | src/hardware/floppy_disk/floppy_disk_driver.cpp:65-146 | a whole-sector command leaves position and odometer in agreement if and only if it does not transfer the image's last byte; and what it does to position and image |
| `FloppyDrive.RunStaysAligned` | src/hardware/floppy_disk/floppy_disk_driver.cpp:65-146 | over any run of such commands the position at each boundary is the absolute offset of the remembered sector, progress 0 |
| `FloppyDrive.LastSectorDerails` | src/hardware/floppy_disk/floppy_disk_driver.cpp:97-117 | after reading the last sector, a read of the first one gives zeros whatever the image holds |
| `FloppyDrive.TrackBytes` | src/hardware/floppy_disk/floppy_disk_driver.cpp:210-238 | from an aligned drive, seeking to sector 1 of a track and reading 9216 bytes gives its eighteen sectors as they are in the image |
| `FloppyDrive.Unit.AdvancePos` | src/hardware/floppy_disk/floppy_disk_driver.cpp:88-117 | the nested branches, in place, are the odometer step |
| `FloppyDrive.Unit.ReadByteFromDrive` | src/hardware/floppy_disk/floppy_disk_driver.cpp:65-76 | a byte read in place, zero past the end of the file, is the specified read |
| `FloppyDrive.Unit.WriteByteToDrive` | src/hardware/floppy_disk/floppy_disk_driver.cpp:78-85 | a byte written in place is the specified write |
| `FloppyDrive.Unit.SeekTo` | src/hardware/floppy_disk/floppy_disk_driver.cpp:119-146 | the returned offset and the new drive are those of the seek |
| `FloppyDrive.Unit.ReadData` | src/hardware/floppy_disk/floppy_disk_driver.cpp:281-289 | the loop of a read command returns the bytes of the run and leaves the drive after it |
| `FloppyDrive.Unit.WriteData` | src/hardware/floppy_disk/floppy_disk_driver.cpp:250-258 | the loop of a write command leaves drive and image as the run of writes does |
| `FloppyProtocol.LoopLength` | src/bios/disk/disk.asm:82-95 | the buffer loop with its signed comparison moves 512 bytes if and only if the offset is not in 0x7e00..0x7ffe, where it moves one |
| `FloppyProtocol.CountTransfers` | src/bios/disk/disk.asm:82-95 | the same, as the loop itself |
| `FloppyProtocol.CommandBytes` | src/hardware/floppy_disk/floppy_disk_driver.cpp:308-325 | which command bytes transfer, configure, end the program, or are answered with 0x80 |
| `FloppyProtocol.TransferSizes` | src/hardware/floppy_disk/floppy_disk_driver.cpp:210-289 | where each transfer starts and how many bytes it returns: a track read ignores the sector it names |
| `FloppyProof.WorkerKeeps` | src/hardware/floppy_disk/floppy_disk_driver.cpp:160-326 | every step of the worker keeps the invariant that ties queue, mailbox, drives and both threads to the reference machine |
| `FloppyTheorems.CpuKeeps` | src/bios/disk/disk.asm:66-235 | so does every step of the BIOS routines |
| `FloppyTheorems.InterleavingsRefine` | src/hardware/floppy_disk/floppy_disk_driver.cpp:149-326 | in every interleaving of any program of sector reads, writes and configurations (disk present, address on it, not the image's last sector, buffer outside the bad range), the CPU's memory at the end is the reference machine's, and the drives hold its images; the program never ends itself |
| `FloppyTheorems.NothingLostOrDuplicated` | src/hardware/floppy_disk/floppy_disk_driver.cpp:149-167 | in every reachable state the bytes offered are the bytes received in order, plus at most the one in the mailbox; what was received is a prefix of the right answer |
| `FloppyTheorems.ReadReturnsLastWrite` | src/bios/disk/disk.asm:66-175 | a sector read returns what the last write to that sector stored, whatever came in between |
| `FloppyTheorems.WriteTouchesOneSector` | src/hardware/floppy_disk/floppy_disk_driver.cpp:240-269 | a write changes exactly the 512 addressed bytes to those sent, and no other byte of any disk |
| `FloppyProgress.MovesBounded` | src/hardware/floppy_disk/commands_queue.h:13-38 | every move of either thread lowers one measure, so moves are bounded whatever the schedule |
| `FloppyProgress.StuckIsFinished` | src/hardware/floppy_disk/floppy_disk_driver.cpp:149-167 | no deadlock: where neither thread can move, the program is over, the queue empty, INT clear and the worker idle |
| `FloppyProgress.ExchangeTerminates` | src/hardware/floppy_disk/floppy_disk_driver.cpp:271-326 | every exchange ends after a bounded number of moves, with the reference machine's memory and disks, even when a command sees a stale RQM |
| `Cpu.SlotsDisjoint` | src/hardware/cpu_i386/instr/helper_funcs.cpp:417-451 | two stack slots less than a span apart never share a byte, across the wrap of SP, of ESP, of the address space and of the A20 mask; the span is 64 KB for SP, the address space for ESP, a megabyte with A20 off |
| `Cpu.SlotsMeet` | src/hardware/cpu_i386/instr/helper_funcs.cpp:417-451 | a whole span apart, two slots are in one place: no deeper stack keeps its values |
| `Cpu.PushAllEffect` | src/hardware/cpu_i386/instr/helper_funcs.cpp:417-441 | pushes fill one slot each, move ESP (or SP alone) once each, and change no other byte or register |
| `Cpu.PopSlot` | src/hardware/cpu_i386/instr/helper_funcs.cpp:425-451 | a pop at that depth, at the same or a more privileged level, returns the slot's value and moves ESP back |
| `CpuBytes.SelectorLoads` | src/hardware/cpu_i386/cpu_i386.cpp:48-82 | in protected mode, for a selector written as 8 times an index, a table bit and a level: exactly when it loads, and base, limit and flags as sums of the descriptor's eight bytes |
| `CpuBytes.RealSelectorLoads` | src/hardware/cpu_i386/cpu_i386.cpp:48-82 | in real mode the base is 16 times the selector and the rest of the cache stays |
| `CpuBytes.Translates` | src/hardware/cpu_i386/cpu_i386.cpp:85-131 | translation with paging off, for an access byte written out bit by bit: who is refused, the limit with its granularity, the base of an expand-down segment, the A20 mask |
| `CpuBytes.RealTranslates` | src/hardware/cpu_i386/cpu_i386.cpp:85-131 | in real mode 16 times the selector plus the offset, with the A20 mask |
| `CpuBytes.SlotAddress` | src/hardware/cpu_i386/instr/helper_funcs.cpp:417-441 | slot k of a stack is where translation of SP or ESP less w(k+1) leads, modulo the register's own size |
| `TaskSwitch.ReadWriteTss` | src/hardware/cpu_i386/tss/tss.h:6-48 | a task state segment written to memory reads back word for word, and nothing outside it changes |
| `TaskSwitch.ResumeRestores` | src/hardware/cpu_i386/instr/helper_funcs.cpp:331-359 | loading a stored context brings back all registers, descriptor caches, LDTR and TR, and writes only the back link |
| `TaskSwitch.SwitchRestores` | src/hardware/cpu_i386/instr/helper_funcs.cpp:301-360 | a switch to a suspended task never throws, gives it the context it was suspended with, links it back, and suspends the running task |
| `TaskSwitch.RunKeepsTasks` | src/hardware/cpu_i386/instr/helper_funcs.cpp:270-360 | over every run of work and switches among any number of tasks nothing throws and all suspended contexts stay stored |
| `TaskSwitch.SwitchBackRestores` | src/hardware/cpu_i386/instr/helper_funcs.cpp:270-360 | leaving task A for B, then any admitted run, then back to A: every register of A, hidden parts included, is what it was |
| `TaskBytes.StoresContext` | src/hardware/cpu_i386/instr/helper_funcs.cpp:301-330 | which field of the running task is stored at which byte of its segment |
| `TaskBytes.KeepsTheRest` | src/hardware/cpu_i386/tss/tss.h:6-48 | the back link, the ring stacks, the upper halves of selector fields, the trap bit, the map base and all other memory keep their bytes |
| `TaskBytes.LoadsContext` | src/hardware/cpu_i386/instr/helper_funcs.cpp:331-359 | from which byte each field of the new task is loaded, and the back link written |
| `TaskBytes.SystemLoads` | src/hardware/cpu_i386/instr/helper_funcs.cpp:270-299 | when LDTR and TR load, and their base and limit as sums of the descriptor's bytes |
| `InterruptTheorems.DeliverEffect` | src/hardware/cpu_i386/cpu_i386.cpp:363-468 | what a delivery leaves: the frame in its slots, ESP below it, no other byte changed, on the same or the inner stack |
| `CpuBytes.DeliversReal` | src/hardware/cpu_i386/cpu_i386.cpp:415-434 | real mode: IP is the word at IDT base + 4n and CS the word after it; the flags stay |
| `CpuBytes.DeliversProtected` | src/hardware/cpu_i386/cpu_i386.cpp:363-413 | protected mode: CS is bytes 2 and 3 of the gate and EIP bytes 0, 1, 6 and 7; EFLAGS loses IF and nothing else if the gate type is 6, else stays; what limit, present bit and privilege must have been |
| `CpuBytes.GateBytes` | src/hardware/cpu_i386/descriptors/gate_desc.h:8-22 | every field of a gate as bytes of memory, accepted or not |
| `CpuBytes.FrameBytes` | src/hardware/cpu_i386/cpu_i386.cpp:436-468 | the bytes of the frame: outer SS and ESP on a change of ring, then EFLAGS, CS and lowest EIP, each lowest byte first |
| `CpuBytes.FrameBelow` | src/hardware/cpu_i386/cpu_i386.cpp:436-468 | without a change of ring the frame is six bytes below SP or twelve below ESP |
| `CpuBytes.FrameInner` | src/hardware/cpu_i386/cpu_i386.cpp:436-460 | with one it is twenty bytes below the stack in bytes 4 to 9 of the task's segment |
| `InterruptTheorems.IretUndoesDelivery` | src/hardware/cpu_i386/instr/instr_handlers.cpp:32-76 | an `iret` after a delivery restores EIP, CS, flags, SS and ESP exactly, in real and protected mode, from the same or an inner ring, whatever else the handler did |
| `InterruptLimits.RingChangeIff` | src/hardware/cpu_i386/cpu_i386.cpp:436-460 | a delivery that must change ring, with everything else in order, happens if and only if the inner stack's privilege level admits the interrupted ring |
| `InterruptTheorems.StackOfInnerRingRefused` | src/hardware/cpu_i386/cpu_i386.cpp:436-460 | so a stack of the handler's own ring, as section 9.6 of the Intel 80386 Programmer's Reference Manual asks for, is always refused |
| `Witnesses.PrivateStackRefused` | src/hardware/cpu_i386/cpu_i386.cpp:436-460 | a concrete machine with such a stack, on which nothing else is amiss and the delivery throws |
| `InterruptTheorems.OtherSizeMisses` | src/hardware/cpu_i386/instr/instr_handlers.cpp:32-76 | in protected mode at one ring, an `iret` of the other operand size never gives back the stack pointer that the right size restores |
| `InterruptNests.NestRestores` | src/hardware/cpu_i386/cpu_i386.cpp:363-468 | n deliveries then n `iret`s, in both modes, the ring kept or lowered once, from conditions on the first state alone: all succeed, every return gives back what its delivery interrupted, and memory differs only in slots below SS:ESP and, after a change of ring, below ss0:esp0 |
| `InterruptLimits.NestRestoresIff` | src/hardware/cpu_i386/cpu_i386.cpp:436-457 | over every such nest, every return restores if and only if the ring is changed at most once: each change starts again at ss0:esp0 |
| `InterruptLimits.SecondChangeLost` | src/hardware/cpu_i386/cpu_i386.cpp:436-457 | with two changes of ring the last return ends in a ring other than the interrupted one, if it does not throw |
| `Witnesses.SecondChangeFails` | src/hardware/cpu_i386/cpu_i386.cpp:436-457 | a concrete machine that goes from ring 3 to 1 to 0 and does not come back to ring 3 |
| `InterruptEpisodes.EpisodeRestores` | src/hardware/cpu_i386/cpu_i386.cpp:363-468 | the same for handlers that work, are interrupted themselves at any depth and change rings, as long as pending frames and descriptors are left alone |
| `InterruptEpisodes.PoliteSucceeds` | src/hardware/cpu_i386/instr/instr_handlers.cpp:32-76 | no such course throws, and it leaves alone every byte a pending return needs |
| `InterruptEpisodes.HandleRestores` | src/hardware/cpu_i386/instr/instr_handlers.cpp:32-76 | one interrupt of such a course: given a balanced handler, the return restores the interrupted context |
| `Processor.CpuI386.SetSegment` | src/hardware/cpu_i386/cpu_i386.cpp:48-82 | the object's segment load is the one the theorems speak of, faults included |
| `Processor.CpuI386.TransV2p` | src/hardware/cpu_i386/cpu_i386.cpp:85-131 | the address translation (paging off), with every check of type, privilege and limit |
| `Processor.CpuI386.Push` | src/hardware/cpu_i386/instr/helper_funcs.cpp:417-441 | ESP first, then the store, faults included |
| `Processor.CpuI386.Pop` | src/hardware/cpu_i386/instr/helper_funcs.cpp:425-451 | the load first, then ESP, faults included |
| `Processor.CpuI386.WriteMem` | src/hardware/cpu_i386/ram/ram.hpp:53-53 | a store of two or four bytes, dropped unless four bytes fit |
| `Processor.CpuI386.SaveRegs` | src/hardware/cpu_i386/cpu_i386.cpp:436-468 | the frame is pushed in place as specified, with or without a change of stack |
| `Processor.CpuI386.HandleInterrupt` | src/hardware/cpu_i386/cpu_i386.cpp:363-434 | takes the oldest queued interrupt, if any, and delivers it as specified |
| `Processor.CpuI386.Iret` | src/hardware/cpu_i386/instr/instr_handlers.cpp:32-76 | both operand sizes, the return to an outer ring and the nested-task return, as specified |
| `Processor.CpuI386.SetLdtr` | src/hardware/cpu_i386/instr/helper_funcs.cpp:270-281 | the local table register as loaded from its descriptor |
| `Processor.CpuI386.SetTr` | src/hardware/cpu_i386/instr/helper_funcs.cpp:283-299 | the task register, from a descriptor of a task |
| `Processor.CpuI386.WriteData` | src/hardware/cpu_i386/instr/helper_funcs.cpp:330-330 | the copy of a task state segment changes exactly its bytes |
| `Processor.CpuI386.SwitchTask` | src/hardware/cpu_i386/instr/helper_funcs.cpp:301-360 | store, table loads and resume in place, as specified |
| `Paging.WalkOnBytes` | src/hardware/cpu_i386/paging/paging_system.cpp:23-58 | the walk on bytes: for an address 0x400000 d + 0x1000 t + o, which four bytes are the directory entry and which the table entry, what their user, writable and present bits deny, and the frame plus o as the result |
| `Paging.PageReached` | src/hardware/cpu_i386/paging/paging_system.cpp:23-58 | with both entries permitting, the walk and a translation from an empty cache give 0x1000 n + o |
| `Paging.TranslateIsWalkIff` | src/hardware/cpu_i386/paging/paging_system.cpp:23-58 | with a coherent cache the translation equals the two-level walk, faults and CR2 included, unless a cached entry permits what the directory denies |
| `Paging.WalkSucceedsTranslateAgrees` | src/hardware/cpu_i386/paging/paging_system.cpp:23-58 | hit or miss, where the walk succeeds the translation gives the same address |
| `Paging.OpenDirectoryTranslateIsWalk` | src/hardware/cpu_i386/paging/paging_system.cpp:43-55 | where present directory entries deny nothing, they agree on everything |
| `Paging.CachedForEver` | src/hardware/cpu_i386/paging/paging_system.cpp:5-21 | a cached entry stays through every later access and store |
| `Paging.CachedThroughLoads` | src/hardware/cpu_i386/paging/paging_system.cpp:5-21 | and through every load of CR3 |
| `Paging.RunStaysCoherent` | src/hardware/cpu_i386/paging/paging_system.cpp:5-58 | over every run of accesses and of stores outside the tables each cached entry is the one the walk finds |
| `Paging.RunTranslatesLikeWalk` | src/hardware/cpu_i386/paging/paging_system.cpp:23-58 | after every such run, what the walk grants the translation grants at the same address; over an open directory they agree on everything |
| `Paging.StaleIff` | src/hardware/cpu_i386/paging/paging_system.cpp:5-58 | never flushed: after any stores and loads of CR3, the translation of a cached page is right if and only if, where the old entry permits the access, the tables permit it at both levels and lead to the same frame, and where it denies it, the tables deny it too |
| `Witnesses.RemappedPageIsStale` | src/hardware/cpu_i386/paging/paging_system.cpp:5-58 | a page is read, remapped, and still translated to the old frame |
| `Witnesses.ReloadedPageIsStale` | src/hardware/cpu_i386/paging/paging_system.cpp:5-58 | CR3 is loaded with a directory that maps nothing, and a page is still translated |
| `Witnesses.SupervisorPageLeaks` | src/hardware/cpu_i386/paging/paging_system.cpp:32-51 | a supervisor reads a page, after which a user passes a directory entry for supervisors only |
| `Paging.PagingSystem.TranslateAddr` | src/hardware/cpu_i386/paging/paging_system.cpp:23-58 | the method over the growing vector is the specified translation |
| `Paging.PagingSystem.SearchCachedPage` | src/hardware/cpu_i386/paging/paging_system.cpp:5-13 | the lookup in the vector |
| `Paging.PagingSystem.CachePage` | src/hardware/cpu_i386/paging/paging_system.cpp:15-21 | growing and filling the vector changes one entry |
| `Pic.BelowMask` | src/hardware/cpu_i386/pic/pic.cpp:35-36 | the comparison with the whole in-service byte, read by lines |
| `PicTheorems.OneInService` | src/hardware/cpu_i386/pic/pic.cpp:35-36 | with exactly one line in service exactly the lines before it may interrupt |
| `PicTheorems.NestingIff` | src/hardware/cpu_i386/pic/pic.cpp:35-36 | the test is the full nesting of the 8259A for every line if and only if at most one line is in service |
| `PicTheorems.SecondLevelReenters` | src/hardware/cpu_i386/pic/pic.cpp:35-36 | with lines 1 and 3 in service, line 1 interrupts its own handler |
| `PicTheorems.InitialisationTakes` | src/hardware/cpu_i386/pic/pic.cpp:104-168 | a command and as many data bytes as it asks for initialise the controller with those bytes; later ones only set the mask |
| `PicTheorems.CheckEffect` | src/hardware/cpu_i386/interrupts/interrupts_system.cpp:7-21 | a check accepts exactly the first unmasked asking line if it may interrupt, and queues 8*(ICW2>>3) plus that line; on the cascaded line the slave has a request and its first gives the vector; a refused request is used up; no master request stays behind |
| `PicTheorems.RunStaysConfigured` | src/hardware/cpu_i386/interrupts/interrupts_system.cpp:7-21 | over every run of checks, requests, commands and data the program never ends itself and the master's IRR is empty between checks |
| `PicTheorems.WordsNeverChange` | src/hardware/cpu_i386/pic/pic.cpp:104-168 | once initialised, ICW1 to ICW4 never change |
| `PicTheorems.HighestNeverRises` | src/hardware/cpu_i386/pic/pic.cpp:20-71 | while a controller is in service its highest line in service never rises |
| `PicWords.LinesOnBits` | src/hardware/cpu_i386/pic/pic.hpp:32-48 | bit i of a mask byte is line i |
| `PicWords.ModeBits` | src/hardware/cpu_i386/pic/pic.hpp:104-130 | 8086 mode is bit 0 of ICW4 and automatic end of interrupt bit 1 |
| `PicWords.VectorBits` | src/hardware/cpu_i386/pic/pic.cpp:68-70 | the vector of a line from the digits of ICW1 and ICW2, in either mode |
| `PicWords.CompletionAsks` | src/hardware/cpu_i386/pic/pic.cpp:137-168 | which word completes an initialisation, and that the devices are then asked once, the slave by polling it |
| `PicWords.EndOfInterrupt` | src/hardware/cpu_i386/pic/pic.cpp:104-135 | a command digit by digit: bit 5 clears the line of bits 0 to 2 if bit 6 is set, else the first in service; without bit 5 nothing changes |
| `PicWords.ServedAgain` | src/hardware/cpu_i386/pic/pic.cpp:20-135 | from an idle master without automatic end: accepting, then either end of interrupt, leaves the ISR empty, and when the device asks again the same line is accepted with the same vector |
| `PicWords.CascadedServedAgain` | src/hardware/cpu_i386/pic/pic.cpp:20-135 | the same for a device of the slave, ended at both controllers |
| `PicUnits.Unit.PollNextIrq` | src/hardware/cpu_i386/pic/pic.cpp:20-45 | the scan over the lines, polling the slave in its turn, is the specified poll of both controllers |
| `PicUnits.Unit.GetNextIntrNum` | src/hardware/cpu_i386/pic/pic.cpp:47-71 | acknowledges the first request and answers its number, -1 for the slave, or ends the program |
| `PicUnits.Unit.SendCommand` | src/hardware/cpu_i386/pic/pic.cpp:104-135 | the first command starts initialisation; later ones end the named or the first line in service |
| `PicUnits.Unit.SendData` | src/hardware/cpu_i386/pic/pic.cpp:137-168 | the initialisation words in turn, then the mask; completing asks every device once |
| `PicUnits.InterruptsSystem.ChkIrq` | src/hardware/cpu_i386/interrupts/interrupts_system.cpp:7-21 | poll, acknowledge and queue are the specified check |
| `Alu.CompareDecides` | src/hardware/cpu_i386/instr/instr_handlers.cpp:228-264 | after a compare at 8, 16 or 32 bits each of the sixteen conditions holds exactly when its relation between the operands does |
| `Alu.AddFacts` | src/hardware/cpu_i386/registers/flags_reg.cpp:9-28 | carry and sign of an addition are exact, overflow says whether the signed sum fits, zero whether the unreduced sum is zero |
| `Alu.ZeroAfterAddIff` | src/hardware/cpu_i386/registers/flags_reg.cpp:15-23 | the zero flag of an addition is right if and only if the sum is not exactly 2^size |
| `Alu.AdcImmediateIff` | src/hardware/cpu_i386/instr/instr_handlers.cpp:567-574 | adc with an immediate: when exactly its carry, and when exactly its overflow, is that of the sum |
| `Alu.SbbImmediateIff` | src/hardware/cpu_i386/instr/instr_handlers.cpp:576-583 | the same for sbb |
| `Alu.AddChainSum` | src/hardware/cpu_i386/instr/instr_handlers.cpp:786-791 | add followed by adc over any number of 16-bit limbs computes the whole sum, with the exact carry out |
| `Alu.AddChainOverflow` | src/hardware/cpu_i386/instr/instr_handlers.cpp:786-791 | and OF at the end says whether the signed sum of the whole numbers fits |
| `Alu.CheckParity` | src/hardware/cpu_i386/registers/flags_reg.cpp:197-204 | the bit loop decides whether the number of ones is even |
| `Alu.ParityOfDigits` | src/hardware/cpu_i386/registers/flags_reg.cpp:197-204 | even parity is an even sum of the eight binary digits |
| `Alu.FlagsRegister.UpdateAdd` | src/hardware/cpu_i386/registers/flags_reg.cpp:9-28 | the flag fields after an addition, the second operand cut to size first |
| `Alu.FlagsRegister.UpdateSub` | src/hardware/cpu_i386/registers/flags_reg.cpp:84-105 | the flag fields after a subtraction |
| `Strings.MovswRounds` | src/hardware/cpu_i386/instr/instr_handlers.cpp:1083-1108 | with a prefix the move runs CX rounds, 65536 for zero, if ZF is clear, and one if it is set, each round seeing what the last wrote |
| `Strings.MoveTimesRegisters` | src/hardware/cpu_i386/instr/instr_handlers.cpp:1083-1108 | SI and DI have moved k words and CX gone down by k, modulo 2^16 in the low halves, and nothing else but memory has changed |
| `Strings.BlockMove` | src/hardware/cpu_i386/instr/instr_handlers.cpp:1083-1108 | moving upwards copies the block as it was even when the two overlap, unless the destination starts inside the source |
| `Strings.CmpsbStops` | src/hardware/cpu_i386/instr/instr_handlers.cpp:1110-1135 | the comparison runs up to and including the first pair that ends it or as many as CX says, with SI, DI, CX and flags to match |
| `Strings.CmpsbStopsSomewhere` | src/hardware/cpu_i386/instr/instr_handlers.cpp:1110-1135 | every comparison that does not fault stops at such a place |
| `Strings.RepeVerdict` | src/hardware/cpu_i386/instr/instr_handlers.cpp:1110-1135 | after REPE, ZF says whether the whole blocks are equal, else CF whether the first difference is below |
| `StringBytes.RepneVerdict` | src/hardware/cpu_i386/instr/instr_handlers.cpp:1110-1135 | after REPNE, ZF says whether a pair was equal; it is then the last one and the first equal one, else CX has run out |
| `StringBytes.MovesOneWord` | src/hardware/cpu_i386/instr/instr_handlers.cpp:1083-1108 | without a prefix: exactly when it fails, the two bytes copied, SI and DI stepped by two in either direction, all else kept |
| `StringBytes.ComparesOneByte` | src/hardware/cpu_i386/instr/instr_handlers.cpp:1110-1135 | without a prefix: exactly when it fails, all five flags of the difference of the two bytes, SI and DI stepped by one, all else kept |
| `StringBytes.RoundsOfCx` | src/hardware/cpu_i386/instr/instr_handlers.cpp:1094-1107 | the count is CX, and zero stands for 65536 |
| `StringUnits.Movsw` | src/hardware/cpu_i386/instr/instr_handlers.cpp:1083-1108 | the loop over the processor object is the specified instruction |
| `StringUnits.MoveWord` | src/hardware/cpu_i386/instr/instr_handlers.cpp:1083-1090 | one round in place is the specified one |
| `StringUnits.Cmpsb` | src/hardware/cpu_i386/instr/instr_handlers.cpp:1110-1135 | the loop over processor and flags is the specified instruction |
| `Decoder.DecodeEncoded` | src/hardware/cpu_i386/instr/instr_decoder.cpp:11-218 | every encoding the grammar allows, in any mode and with any prefixes, decodes to its meaning and consumes exactly its bytes; only a 16-bit displacement, which is read as four bytes, needs two more to follow |
| `Decoder.DecodedIsEncoded` | src/hardware/cpu_i386/instr/instr_decoder.cpp:11-218 | whatever is decoded is such an encoding: the length consumed is its length and the fields are its parts |
| `Decoder.OneReading` | src/hardware/cpu_i386/instr/instr_decoder.cpp:150-218 | what follows an instruction cannot change how it is read, nor whether, unless it cuts off the long read of a 16-bit displacement |
| `Decoder.SegmentPrefix` | src/hardware/cpu_i386/instr/instr_decoder.cpp:18-34 | the last segment prefix decides, and the one for CS selects SS |
| `DecoderFields.LastSegment` | src/hardware/cpu_i386/instr/instr_decoder.cpp:18-50 | of the six segment prefixes the last one decides, whatever other prefixes follow, and the number of its register |
| `DecoderFields.LastRepeat` | src/hardware/cpu_i386/instr/instr_decoder.cpp:51-72 | of 0xf2 and 0xf3 the last one decides |
| `DecoderFields.OperandPrefix` | src/hardware/cpu_i386/instr/instr_decoder.cpp:51-72 | 0x66 anywhere turns the operand size and 0xf0 anywhere locks |
| `DecoderFields.ModrmParts` | src/hardware/cpu_i386/instr/instr_decoder.cpp:94-136 | mode, register and form of ModRM, scale, index and base of SIB, from a byte written as 0x40 a + 8 b + c |
| `DecoderFields.SpelledIsLegal` | src/hardware/cpu_i386/instr/instr_decoder.cpp:94-218 | the grammar is the encoding spelled out from flags, mode and prefixes: SIB and displacement widths, immediates of one, two or four bytes, two of a far selector, four or two of a memory offset |
| `DecoderFields.ReadsFields` | src/hardware/cpu_i386/instr/instr_decoder.cpp:150-218 | every byte string that begins with an encoding so spelled out is read as it: the length, and each field as the number its bytes are, lowest first, whatever follows |
| `DecoderFields.ReadIsSpelled` | src/hardware/cpu_i386/instr/instr_decoder.cpp:150-218 | and whatever is read is such an encoding |
| `DecoderUnits.Decoding.Prefixes` | src/hardware/cpu_i386/instr/instr_decoder.cpp:11-72 | the prefix loop consumes and applies all leading prefixes |
| `DecoderUnits.Decoding.Opcode` | src/hardware/cpu_i386/instr/instr_decoder.cpp:74-84 | one or two opcode bytes |
| `DecoderUnits.Decoding.ModrmSibDisp` | src/hardware/cpu_i386/instr/instr_decoder.cpp:94-136 | ModRM, SIB where there is one, and the displacement of the right width |
| `DecoderUnits.Decoding.Tail` | src/hardware/cpu_i386/instr/instr_decoder.cpp:191-216 | immediate, far selector and memory offset |
| `DecoderUnits.Decoding.DecodeAll` | src/hardware/cpu_i386/instr/instr_decoder.cpp:150-218 | the stepwise decoder with its prefix loop is the specified decoding |
| `Addressing.AddressSize` | src/hardware/cpu_i386/instr/helper_funcs.h:7-13 | address size depends on the mode and the prefix 0x67 alone |
| `Addressing.Address16` | src/hardware/cpu_i386/instr/helper_funcs.cpp:145-183 | 16-bit forms: address modulo 2^16 and default segment are the manual's, from the displacement bytes of the encoding; the full word is right exactly when the sum needs no wrapping |
| `Addressing.Address32Plain` | src/hardware/cpu_i386/instr/helper_funcs.cpp:185-212 | 32-bit forms without SIB: address and default segment are the manual's |
| `Addressing.Address32Sib` | src/hardware/cpu_i386/instr/helper_funcs.cpp:214-233 | forms with SIB: exactly when the calculator gives up, when its address is the manual's, and when its default segment is |
| `Terminal.ScreenIsWindow` | src/bios/video/video_cpp.cpp:45-120 | after any text the screen is the last 25 rows of an endless page with the text printed on it, and the cursor is inside |
| `Terminal.CharOnPage` | src/bios/video/video_cpp.cpp:45-59 | character k is on the page for good, at the place the first k characters lead to |
| `Terminal.RestOfPage` | src/bios/video/video_cpp.cpp:45-59 | all other cells are as they were, and rows the page has grown by are 0x0700 |
| `Terminal.CharOnScreen` | src/bios/video/video_cpp.cpp:45-120 | a character is seen after the text if its row is among the last 25, where the window puts it |
| `Terminal.CharacterPrints` | src/bios/video/video_cpp.cpp:45-59 | one character as a word 0x0700 + code at the cursor, the cursor after it, after column 39 and after a character 10, and the row of 0x0700 that comes in |
| `Terminal.ScrollKeepsCursorIff` | src/bios/video/video_cpp.cpp:105-120 | a scroll by n rows keeps the cursor on the screen if and only if n is at most the cursor's row |
| `Terminal.Console.ScrollLines` | src/bios/video/video_cpp.cpp:105-120 | the overlapping forward copy in place is a shift by whole rows, blanks after it, for every count |
| `Terminal.Console.PrintCharacter` | src/bios/video/video_cpp.cpp:45-59 | cell, cursor and scrolling as specified, also from a cursor outside the screen |
| `Terminal.Console.WriteString` | src/bios/video/video_cpp.cpp:94-103 | writes up to the first zero byte and counts it; the screen is the window of the printed page |
| `Vga.ReadIsFlat` | src/hardware/vga/gc/gc.cpp:26-41 | in the odd/even text setup a read gives the flat byte, 0 outside the window |
| `Vga.WriteIsFlat` | src/hardware/vga/seq/sequencer.cpp:25-52 | a write changes that one byte, and planes 2 and 3 not at all |
| `Vga.PlanesAreFlat` | src/hardware/vga/seq/sequencer.cpp:15-52 | any run of reads and writes behaves as a run on a flat array of 32 KB and never ends the program |
| `Vga.EveryPixelIsADot` | src/hardware/vga/vga.cpp:60-84 | every pixel of the screen is such a dot |
| `Vga.WriteWordIsCell` | src/hardware/cpu_i386/io/mem_mapped_io.h:60-65 | a word written to the window byte by byte changes one cell of display memory |
| `VgaDots.PixelColour` | src/hardware/vga/vga.cpp:60-84 | in every geometry that fits, through all 16-bit truncations: dot (i, j) of a cell has the low half of the cell's attribute as its index if digit j of byte i of the character is 1 in the font that bit 3 of the attribute chooses, else the high half |
| `VgaDots.DotColour` | src/hardware/vga/seq/sequencer.cpp:54-70 | the same for one dot, with the beginning of each of the eight fonts in plane 2 written out |
| `VgaDots.TextOnGlass` | src/hardware/vga/vga.cpp:60-84 | end to end: a character of a text, if its row is still on the screen, has index 7 at the dots its font byte has digit 1 for and index 0 at all others |
| `VgaDots.StoreReaches` | src/hardware/vga/seq/sequencer.cpp:25-52 | for every setting of chain, all-planes, odd/even, map mask and window: the one byte of each plane that a store changes, and the planes it does not change |
| `VgaDots.NarrowReachesNothing` | src/hardware/vga/seq/sequencer.cpp:15-30 | with the extended-memory bit clear the address is cut to 64 KB before the window is tested, so loads give zero and stores are lost |
| `Vga.DisplayRgbImage` | src/hardware/vga/vga.cpp:17-52 | the pixel loop fills three bytes per pixel with the colour of that pixel's attribute index |
| `VgaUnits.DisplayAdapter.SeqWrite` | src/hardware/vga/seq/sequencer.cpp:25-52 | the routing to planes, in place, is the specified one, for every setting of the registers |
| `VgaUnits.DisplayAdapter.GcWrite` | src/hardware/vga/gc/gc.cpp:43-61 | the store into a plane is the specified one |
| `VgaUnits.DisplayAdapter.GcRead` | src/hardware/vga/gc/gc.cpp:9-41 | the read from a plane is the specified one |
| `VgaUnits.DisplayAdapter.WriteByte` | src/hardware/vga/vga.cpp:126-133 | nothing while access is disabled, else the sequencer's write |
| `VgaUnits.DisplayAdapter.ReadByte` | src/hardware/vga/vga.cpp:120-124 | zero while access is disabled, else the plane's byte |
| `IoMap.LookupIsScan` | src/hardware/cpu_i386/io/port_mapped_io.h:47-68 | for ranges that do not overlap, assigned in any order, the lookup agrees with a linear scan at every address |
| `IoMap.LookupRightIff` | src/hardware/cpu_i386/io/mem_mapped_io.h:92-118 | the lookup finds every range at all its addresses if and only if no range begins inside another |
| `IoMap.ZeroMeansNoneIff` | src/hardware/cpu_i386/io/mem_mapped_io.h:129-134 | base 0 for "none" is unambiguous if and only if no range begins at 0 |
| `IoMap.HandlerIsScan` | src/hardware/cpu_i386/io/port_mapped_io.h:47-68 | for ranges that do not overlap, the handler found through the map is the one a linear scan finds |
| `IoMap.Manager.Assign` | src/hardware/cpu_i386/io/port_mapped_io.h:47-49 | the map stays the one of all assignments in their order, this one last |
| `IoMap.Manager.FindHandler` | src/hardware/cpu_i386/io/port_mapped_io.h:51-68 | the handler of the last range that begins at or below the address, if it reaches that far; and if no two of the ranges assigned so far overlap, the one a linear scan of them finds |

## Where the code departs from expectations

- `seek` ignores the progress inside a sector, and the last byte of an image makes the
  odometer wrap while the file does not (`SeekOvershoots`, `LastSectorDerails`).
- The BIOS buffer loops compare offsets as signed numbers and stop after one byte for a
  small range of buffers (`LoopLength`).
- A cached page skips the checks of the directory entry and outlives CR3
  (`TranslateIsWalkIff`, `StaleIff`).
- The frame of a ring-changing interrupt is pushed before CS changes (`RingChangeIff`), and
  a second change of ring overwrites the frame of the first (`NestRestoresIff`).
- The in-service test of the controllers is not full nesting (`NestingIff`), and a refused
  request is lost (`CheckEffect`).
- With the extended-memory bit of the sequencer clear, no address is in any display window
  (`NarrowReachesNothing`).
- A repeat count of zero moves or compares 65536 times, and the move stops on ZF
  (`MovswRounds`).
- Immediate forms of adc and sbb, and ZF after an addition, are not always right
  (`AdcImmediateIff`, `SbbImmediateIff`, `ZeroAfterAddIff`).
- The prefix 0x2e selects SS (`SegmentPrefix`); SIB forms with ESP are not the manual's
  (`Address32Sib`).

## Left out

- Paging is proved by itself; interrupts, tasks and strings are modelled with paging off, as `trans_v2p` then works.
- Accesses of the processor to the display region are `None` in `Cpu`; the display is modelled in `Vga` instead.
- What an operation leaves behind when it throws part way.
- `callf`, `retf` and the far jump, and the clean return of the nested-task path of `iret`: that path is modelled, but no round trip holds of it.
- The disk interrupt raised per byte, and the BIOS routine that answers it; DIO, CMD_BSY and DRV_BSY, which are written and never read here.
- Floppy sector sizes other than 512 bytes and the track read are steps of the worker but not of the client programs the interleaving theorems are about; a drive's progress is taken as 0 when a disk is inserted.
- Sleeps, the C++ memory model, and failing file access: each shared access is one atomic step, and an image is an array of bytes with a position.
- The queue's size limit is kept as a condition of `enqueue`; the mutex is the atomicity of a step.
- Bytes are fetched by the decoder from a finite string; a fetch beyond it is the fault. At the very end of memory the program reads zeros instead. The opcode tables are a parameter.
- What memory does for the last three addresses of the address space, where its range test wraps and the access leaves the array: such an access is `None`.
- The loop of the BIOS over several sectors (sector plus one, buffer plus 512): it is a program of single-sector requests.
- The low sixteen registers' other aliases (AL, AH and so on), and ALU operations other than add, subtract and compare with their carry forms.
- `cmps` of words and double words, and the 32-bit string forms.
- Display modes other than text, the attribute, palette and CRT register files, which appear as a colour table and a geometry; the window system.
- The keyboard controller, the timer, the A20 port and the register ports of the devices.
- Uninitialised fields of the controllers and of memory are parameters, or zero.
