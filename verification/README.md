# Orbum verification

A Dafny model of the parts of the Orbum PlayStation 2 emulator whose correctness depends on more than
one function at a time, with proofs of what those parts are for.

- **DMA.** The EE and IOP DMA controllers step as concurrent tasks and exchange bytes through a bounded
  FIFO. `DmaFifo`, `EeDmac` and `IopDmac` are the queue and the controllers, updated in place;
  `EeDmacSpec` and `IopDmacSpec` are the value of one step; `DmacRegisters` says
  what that step does by channel number, bit field and mask, and `TagTransfer` which bytes of a tag cross a
  link and what is read in them. `FifoProtocol` proves that testing a FIFO and
  then moving bytes one at a time is safe. `SourceTransfer` proves that the small steps of a source chain
  deliver the meaning of its tag list, and `SourceProgress` that they end. `Sif0Stream` and `Sif0` prove
  the link from the IOP to the EE end to end: order, framing, conservation and progress; `Sif1Stream` and
  `Sif1` do the same for the link from the EE to the IOP. `NormalMode` and `NormalProgress` prove
  conservation and progress for channels of every kind, and `StallControl` the producer/consumer protocol
  through D_STADR.
- **ByteBus.** `ByteBusTable` gives the meaning of the two-level page table and of a coarsened one;
  `ByteBus` has the loops of the implementation, proved to compute it. `Bits` and `Bitfield` hold the
  arithmetic of masks and shifts that all modules rest on.
- **Address translation.** `Tlb`, `Translation`, `LruCache`, `EeCoreSpec` and `EeCore` prove that the slow
  path is homogeneous on 4 KB pages and that the cached path therefore agrees with it over whole runs,
  and exactly where it does not.
- **Task executor.** `Executor` is the protocol between the main thread and the workers, one step per
  mutex-held section: barrier, conservation of tasks, wake-ups, errors and progress. `Queues` and `Batch`
  are the bounded queue and the building of a run's batch, and `CoreRun` is one batch after another, with
  the errors that are left over.
- **EE timers.** `TimersSpec` and `Timers`: the tick loop, and what runs of ticks amount to.

State that the emulator updates in place is a class here, and its methods are proved to compute a
function of the old state. What the emulator promises is then proved about those functions and about
runs of them. Interleavings are runs of a step relation, so that every result about a run holds for every
schedule and every timing of the peripherals.

Verify with `dafny verify dfyconfig.toml --resource-limit 2000000 --verification-time-limit 0`.

Quirks of the code that the model keeps, because a result depends on them:

- `ByteBus::map` tests the wrapped end address, so its range check never rejects anything
  (`ByteBusTable.RangeGuardNeverFires`), and a range that goes on past the end of the address space indexes
  past the last directory (`ByteBusModel.ByteBus.Map`). A lookup in a directory without pages reads past an
  empty vector (`ByteBusTable.AllocatedExactly`).
- The TLB search never probes entry 47 (`Tlb.Entry47NeverFound`).
- The translation cache is not keyed by the kind of access, so that a read hides the check of a clean
  page from later writes (`EeCoreSpec.ReadHidesCleanPage`); Reset, NMI and writes of Status or EntryHi do
  not flush (`EeCoreSpec.StaleWithoutFlush`, `EeCoreSpec.StaleAfterStatusWrite`). Reads stay exact if and
  only if the condition of `EeCoreSpec.Cop0WriteExactly` (any write of Status and EntryHi; with
  `EeCoreSpec.AsidWriteExactly`, `EeCoreSpec.EnterUserExactly` and `EeCoreSpec.ClearErlExactly` for single
  changes) or `EeCoreSpec.ResetExactly` holds.
- The supervisor segment test compares against the bounds of two different segments; the range that
  is left reaches from 0 to 0xDFFFFFFF (`Translation.SupervisorSegment`).
- A level 1 exception clears Status.ERL, and a level 2 exception sets EXL, which its ERET does not clear
  (`EeCoreSpec.EretResumes`). An exception within an exception leaves a pending branch pending
  (`EeCoreSpec.HandlerIsNext`).
- The stall comparison uses unmasked addresses while the data moves at masked ones
  (`StallControl.OverrunsExactly`). D_CTRL.STD = 0 selects VIF0 (`StallControl.UnspecifiedDrainStallsVif0`).
  After a CNTS or REFS tag the later tags of the transfer are under stall control too
  (`StallControl.DestTagFits`, `StallControl.SourceTagFits`).
- A word write to a timer's MODE over the EE bus requests a reset, but changes no bit except the flags 10
  and 11 (`TimersSpec.WordWriteKeepsMode`); only writes of bytes and halfwords, which request none, change
  the mode. The reset keeps the overflow flag, so that a narrow write that enables the overflow interrupt
  while the flag is set, and no other event, leaves an interrupt to be raised by the next tick that counts
  (`TimersSpec.OldOverflowExactly`, `TimersSpec.StaleOverflowInterrupts`).
- wait_for_idle throws one queued error and keeps the others for later runs, which then throw without an
  error of their own (`CoreRun.LeftOverErrorThrows`).
- A timer count above 65535 wraps modulo 65535, so that it continues with 1, not 0
  (`TimersSpec.FreeRunningTimer`). The comment on the zero return speaks of count >= compare; the code
  tests equality.

## Model

| member | source | states |
|---|---|---|
| BitfieldModel.ExtractIsDigit | liborbum/src/Common/Types/Bitfield.hpp:28-43 | Extraction by shift and mask reads the base-2^length digit of weight 2^start. |
| BitfieldModel.InsertIsDigits | liborbum/src/Common/Types/Bitfield.hpp:46-51 | Insertion replaces that digit by the low bits of the field value and keeps the digits above and below. |
| BitfieldModel.ExtractAfterInsert | liborbum/src/Common/Types/Bitfield.hpp:40-51 | Extracting an inserted field gives the field value, truncated to the field's length. |
| BitfieldModel.InsertKeepsOthers | liborbum/src/Common/Types/Bitfield.hpp:40-51 | Insertion changes no field that shares no bit with the inserted one. |
| ByteBusModel.CountTrailingZeros | liborbum/src/Utilities/Utilities.cpp:34-51 | The bit-scanning loop returns 32 for 0, and else the exponent of the largest power of two that divides the value: the next one does not. |
| ByteBusTable.TrailingZerosLargest | liborbum/src/Utilities/Utilities.cpp:34-51 | A power of two divides a value if and only if its exponent is at most the number of trailing zeros, 32 for 0. |
| ByteBusModel.FillDirectory | liborbum/src/Common/Types/Bus/ByteBus.hpp:92-118 | The inner mapping loop claims exactly the pages of one directory that meet the object's range, and stops at the first occupied one. |
| ByteBusModel.MapDirectories | liborbum/src/Common/Types/Bus/ByteBus.hpp:73-120 | The outer loop succeeds exactly when every touched directory is aligned for the object and free, and runs past the last directory exactly when the object goes on there after such directories; a failure leaves every earlier object resolved. |
| ByteBusModel.ByteBus.Map | liborbum/src/Common/Types/Bus/ByteBus.hpp:62-120 | Mapping succeeds if and only if the object can be mapped, and then the table is the specified one; it indexes past the table if and only if the range leaves the address space and the part before can be mapped; other failures are told apart, and none loses an earlier object. |
| ByteBusModel.ByteBus.GetPage | liborbum/src/Common/Types/Bus/ByteBus.hpp:125-150 | The two-level lookup returns the page that the table's meaning gives for the address, and reads past the page vector if and only if the directory has no pages. |
| ByteBusModel.OptimiseDirectory | liborbum/src/Common/Types/Bus/ByteBus.hpp:277-291 | The coarsening loop keeps exactly every n-th page, for the directory's optimal alignment. |
| ByteBusModel.ByteBus.OptimiseTables | liborbum/src/Common/Types/Bus/ByteBus.hpp:273-292 | Optimising computes the specified coarse table in every directory. |
| ByteBusTable.MappedLookup | liborbum/src/Common/Types/Bus/ByteBus.hpp:98-118 | After a mapping, an address resolves to the new object exactly on the pages that meet its range, and as before elsewhere. |
| ByteBusTable.OptimisedLookup | liborbum/src/Common/Types/Bus/ByteBus.hpp:273-292 | Lookup after optimise is the earlier lookup at the address rounded down to its directory's optimal page. |
| ByteBusTable.OptimisedIdempotent | liborbum/src/Common/Types/Bus/ByteBus.hpp:277-280 | A second optimise changes nothing. |
| ByteBusTable.AllocatedExactly | liborbum/src/Common/Types/Bus/ByteBus.hpp:88-146 | After any run a directory has pages if and only if a mapping met it or the bus was optimised. |
| ByteBusTable.OptimalAlignmentExactly | liborbum/src/Common/Types/Bus/ByteBus.hpp:75-91 | After any run the optimal page of a directory is the largest power of two, at most the directory, that divides the address of every object mapped in it, where address 0 counts as 2^32. |
| ByteBusTable.MappedObjectsResolve | liborbum/src/Common/Types/Bus/ByteBus.hpp:62-150 | After any run of successful maps and optimises on a fresh bus, every address of every mapped object resolves to it with its own base, at an offset below its size. |
| ByteBusTable.LookupExactBeforeOptimise | liborbum/src/Common/Types/Bus/ByteBus.hpp:62-150 | Before an optimise an address resolves to an object if and only if it lies in a range the object was mapped at. |
| ByteBusTable.LookupExactAfterOptimise | liborbum/src/Common/Types/Bus/ByteBus.hpp:273-292 | After optimising, if and only if the rounded address does. |
| ByteBusTable.RangeGuardNeverFires | liborbum/src/Common/Types/Bus/ByteBus.hpp:68-72 | The masked directory index of any wrapped end address is in range, so the guard cannot reject it. |
| DmaFifo.DmaFifoQueue.Read | liborbum/src/Common/Types/FifoQueue/FifoQueue.hpp:25-31 | Reading n bytes takes the oldest n in order, and fails exactly when fewer are queued, which it then has drained. |
| DmaFifo.DmaFifoQueue.Write | liborbum/src/Common/Types/FifoQueue/FifoQueue.hpp:33-39 | Writing appends all bytes in order, and fails exactly when they do not fit, having filled the queue with the first of them. |
| FifoProtocol.NeverThrows | liborbum/src/Common/Types/FifoQueue/DmaFifoQueue.hpp:26-55 | From a guarded state no enabled byte step of either side throws, the next state is guarded, and no byte is lost or reordered. |
| FifoProtocol.WritesExactly | liborbum/src/Common/Types/FifoQueue/DmaFifoQueue.hpp:26-55 | A guarded write begins if and only if its bytes fit into 1024 with those queued. |
| FifoProtocol.PipeRunsAreSafe | liborbum/src/Common/Types/FifoQueue/DmaFifoQueue.hpp:26-55 | In every byte-by-byte interleaving of guarded writes and reads occupancy stays within 1024, nothing throws, and what is taken is what was written, in order. |
| Words.QwordRoundTrip | liborbum/src/Common/Types/FifoQueue/FifoQueue.hpp:107-121 | A quadword written as bytes and read back is the same quadword. |
| Words.LittleEndian | liborbum/src/Common/Types/FifoQueue/FifoQueue.hpp:107-121 | The least significant byte of the least significant word is first. |
| Words.ParseAfterStream | liborbum/src/Common/Types/FifoQueue/FifoQueue.hpp:107-121 | Parsing a byte stream that starts with quadwords gives those quadwords, whatever follows. |
| EeDmacSpec.TagFieldsAreBitfields | liborbum/src/Resources/Ee/Dmac/EeDmatag.hpp:13-72 | The tag fields used by the DMAC are the declared bitfields of the two tag words. |
| EeDmacSpec.AddressMask | liborbum/src/Controller/Ee/Dmac/CEeDmac.cpp:107-111 | The mask 0x1FFFFFF0 rounds an address down to a quadword below 512 MB. |
| EeDmacSpec.ScratchpadMask | liborbum/src/Controller/Ee/Dmac/CEeDmac.cpp:119-122 | The mask 0x3FF0 rounds a scratchpad address down to a quadword within 16 KB. |
| DmacRegisters.AddressRegister | liborbum/src/Resources/Ee/Dmac/EeDmacChannelRegisters.hpp:95-96 | Address registers hold the address in bits 0 to 30 and the scratchpad flag in bit 31. |
| DmacRegisters.DataExactly | liborbum/src/Controller/Ee/Dmac/CEeDmac.cpp:224-310 | With data left, a step held back by stall control sets D_STAT.SIS and nothing else; one whose FIFO is not ready changes nothing; any other has one quadword less left, MADR 16 further (SADR too for the scratchpad channels), D_STADR only if it is to publish, and the other registers as they were. |
| DmacRegisters.PublishesExactly | liborbum/src/Resources/Ee/Dmac/EeDmacConstants.hpp:34-38 | In either mode, under stall tags in chain mode, exactly SIF0 for STS 1, fromSPR for 2, fromIPU for 3, and channel 0 for 0, publish MADR in D_STADR. |
| DmacRegisters.HeldBackExactly | liborbum/src/Controller/Ee/Dmac/CEeDmac.cpp:448-497 | A ready sender is held back, and sets SIS, if and only if MADR + 8 exceeds D_STADR and it is VIF1 for STD 1, GIF for 2, SIF1 for 3, or channel 0 for 0, under stall tags in chain mode. |
| DmacRegisters.MovesExactly | liborbum/src/Controller/Ee/Dmac/CEeDmac.cpp:102-205 | The quadword moves between MADR under 0x1FFFFFF0 and the FIFO, or the scratchpad at 0x70000000 plus SADR under 0x3FF0, and nothing else in memory changes. |
| DmacRegisters.StartsExactly | liborbum/src/Controller/Ee/Dmac/CEeDmac.cpp:224-291 | A channel starts without other effect, except that normal mode throws without data. |
| DmacRegisters.SuspendsExactly | liborbum/src/Controller/Ee/Dmac/CEeDmac.cpp:240-330 | Without data left a channel suspends if and only if in chain mode an exit is pending and, in direction To but for toSPR, the FIFO is empty; it sets exactly its bit of D_STAT then. |
| DmacRegisters.CallRegisters | liborbum/src/Controller/Ee/Dmac/CEeDmac_CHAIN.cpp:84-107 | CALL pushes the address 16 beyond the tag it calls, and exits if both return registers are taken. |
| DmacRegisters.RetRegisters | liborbum/src/Controller/Ee/Dmac/CEeDmac_CHAIN.cpp:109-132 | RET takes the scratchpad flag of the return register above the top one for the address, and exits on an empty stack. |
| DmacRegisters.RetResumesExactly | liborbum/src/Controller/Ee/Dmac/CEeDmac_CHAIN.cpp:84-132 | After one CALL a RET resumes at the quadword after the CALL if and only if that address wraps to 0 or 1 and the unused return register has that scratchpad flag. |
| EeDmac.EeDmacChannel.WriteChcr | liborbum/src/Resources/Ee/Dmac/EeDmacChannelRegisters.cpp:21-38 | A CHCR write resets the transfer state if and only if STR goes from 0 to 1, and otherwise keeps it; channels wired in one direction keep it. |
| EeDmac.EeDmac.TransferData | liborbum/src/Controller/Ee/Dmac/CEeDmac.cpp:102-205 | One quadword moves between memory and FIFO or scratchpad if the FIFO is ready, and MADR, QWC and SADR follow; otherwise nothing changes. |
| EeDmac.EeDmac.TransferNormal | liborbum/src/Controller/Ee/Dmac/CEeDmac.cpp:224-277 | A normal mode step has exactly the effect of NormalStep on registers, channel, memory and FIFO. |
| EeDmac.EeDmac.TransferChain | liborbum/src/Controller/Ee/Dmac/CEeDmac.cpp:279-373 | A chain mode step has exactly the effect of ChainStep. |
| EeDmac.EeDmac.ReadChainSourceTag | liborbum/src/Controller/Ee/Dmac/CEeDmac.cpp:521-554 | A source tag is latched unless tag transfer is on and the FIFO lacks room; with it on, the tag's upper half enters the FIFO. |
| EeDmac.EeDmac.ReadChainDestTag | liborbum/src/Controller/Ee/Dmac/CEeDmac.cpp:556-582 | A destination tag is taken from the FIFO if a quadword is queued; tag transfer then throws. |
| EeDmac.EeDmac.ExecuteSourceTag | liborbum/src/Controller/Ee/Dmac/CEeDmac_CHAIN.cpp:13-143 | Each source tag handler sets the channel registers as SourceTag does. |
| EeDmac.EeDmac.ExecuteDestTag | liborbum/src/Controller/Ee/Dmac/CEeDmac_CHAIN.cpp:145-176 | CNTS, CNT and END set the registers as DestTag does; every other tag throws. |
| SourceTransfer.TagRegisters | liborbum/src/Controller/Ee/Dmac/CEeDmac_CHAIN.cpp:13-82 | Executing any tag but CALL and RET sets up its data range, its successor and its exit as the tag list's meaning has them. |
| SourceTransfer.StepSends | liborbum/src/Controller/Ee/Dmac/CEeDmac.cpp:224-373 | One step of a sending channel pushes exactly the next part of what the transfer still means, never throws, and suspends only on an empty FIFO. |
| SourceTransfer.TransferDelivers | liborbum/src/Controller/Ee/Dmac/CEeDmac.cpp:224-373 | For every normal transfer and every closed source tag list, with or without tag transfer, under every FIFO, stall and register interference: the bytes delivered are a prefix of the recursive meaning, all of it once suspended, and the interrupt bit is set exactly then. |
| SourceProgress.ProductiveDecreases | liborbum/src/Controller/Ee/Dmac/CEeDmac.cpp:224-373 | Every step or byte movement of such a transfer that changes something lowers a measure over quadwords, bytes, tags, start and stop. |
| SourceProgress.NeverStuck | liborbum/src/Controller/Ee/Dmac/CEeDmac.cpp:224-373 | Until it has suspended some step changes something, unless stall control holds the next quadword back. |
| SourceProgress.TransferCompletes | liborbum/src/Controller/Ee/Dmac/CEeDmac.cpp:224-373 | A run of changing steps is bounded, and one that cannot continue without being held back has suspended with everything delivered. |
| NormalMode.StepKind | liborbum/src/Controller/Ee/Dmac/CEeDmac.cpp:102-277 | A normal mode step waits, starts, moves one quadword or suspends, under exactly the stated conditions, and never throws. |
| NormalMode.NormalModeConserves | liborbum/src/Controller/Ee/Dmac/CEeDmac.cpp:102-277 | In every run of a sending, receiving or scratchpad channel: QWC plus the quadwords moved is the initial QWC, MADR has advanced 16 for each, memory holds them in order at their targets (the last writer winning) and nothing else changed, the FIFO bytes are theirs in order; suspension and interrupt bit come exactly together, with nothing left. |
| NormalProgress.NeverStuck | liborbum/src/Controller/Ee/Dmac/CEeDmac.cpp:102-277 | Until a normal mode transfer has suspended some step of the channel or its peripheral changes something, unless stall control holds it back. |
| NormalProgress.NormalModeCompletes | liborbum/src/Controller/Ee/Dmac/CEeDmac.cpp:102-277 | A run of changing steps is bounded, and one that cannot continue without being held back has suspended after exactly QWC quadwords. |
| StallControl.SourceEffect | liborbum/src/Controller/Ee/Dmac/CEeDmac.cpp:258-310 | In either mode a source step stores nothing, or stores the next quadword and publishes exactly that progress in D_STADR. |
| StallControl.DrainFollowsSource | liborbum/src/Controller/Ee/Dmac/CEeDmac.cpp:224-373 | For nonzero STS and STD and offsets within a quadword that are safe, each channel in normal mode or in chain mode with stall tags over one area, in every run what the drain has sent is a prefix of what the source has stored. |
| StallControl.OverrunsExactly | liborbum/src/Controller/Ee/Dmac/CEeDmac.cpp:481-497 | A ready drain overtakes a source that has stored nothing if and only if the offsets are not safe. |
| StallControl.DrainWaitsExactly | liborbum/src/Controller/Ee/Dmac/CEeDmac.cpp:481-497 | MADR + 8 > STADR holds when the drain has caught up; with a live offset, only then. |
| StallControl.DrainAdvances | liborbum/src/Controller/Ee/Dmac/CEeDmac.cpp:258-275 | A drain that is behind sends the next stored quadword; one quadword behind it does if and only if its offset is live. |
| StallControl.DestTagFits | liborbum/src/Controller/Ee/Dmac/CEeDmac_CHAIN.cpp:145-176 | A destination tag with data continues the area under stall control if and only if its address and size do and it, or an earlier tag of the transfer, is CNTS. |
| StallControl.SourceTagFits | liborbum/src/Controller/Ee/Dmac/CEeDmac_CHAIN.cpp:13-82 | A source tag with data continues the area under stall control if and only if its data starts where the drain is and it, or an earlier tag of the transfer, is REFS. |
| StallControl.UnspecifiedDrainStallsVif0 | liborbum/src/Resources/Ee/Dmac/EeDmacConstants.hpp:37-38 | With STD = 0 a VIF0 transfer waits if and only if MADR + 8 exceeds D_STADR. |
| IopDmacSpec.IopTagFieldsAreBitfields | liborbum/src/Resources/Iop/Dmac/IopDmatag.hpp:13-55 | The IOP tag fields are the declared bitfields of the two tag words. |
| IopDmacSpec.LengthMask | liborbum/src/Controller/Iop/Dmac/CIopDmac.cpp:364-415 | The mask 0xFFFFC on length + 3 rounds up to whole quadwords, modulo 2^20. |
| TagTransfer.EeSendsUpperHalf | liborbum/src/Controller/Ee/Dmac/CEeDmac.cpp:521-540 | With tag transfer the EE sends bytes 8 to 15 of the tag in memory, then eight zero bytes. |
| TagTransfer.IopSendsUpperHalf | liborbum/src/Controller/Iop/Dmac/CIopDmac.cpp:364-415 | The IOP sends the words at TADR + 8 and TADR + 12, then eight zero bytes, and takes MADR and its length from bits 0 to 23 of the words at TADR and TADR + 4. |
| TagTransfer.EeReceives | liborbum/src/Controller/Ee/Dmac/CEeDmac.cpp:556-582 | The EE takes QWC, id, IRQ and CHCR.TAG from the bit fields of the first word that arrives, and address and scratchpad flag from the second; it throws if and only if the id is not 0, 1 or 7. |
| TagTransfer.IopReceives | liborbum/src/Controller/Iop/Dmac/CIopDmac.cpp:417-449 | The IOP takes the address from bits 0 to 23 of the first word that arrives and the length from the second, and stops after it if and only if bit 31 is set, or bit 30 with its interrupt enable. |
| TagTransfer.EeTagWaits | liborbum/src/Controller/Ee/Dmac/CEeDmac.cpp:521-562 | Without a tag to read, or without room to transfer one, the EE channel waits and changes nothing. |
| TagTransfer.IopTagWaits | liborbum/src/Controller/Iop/Dmac/CIopDmac.cpp:364-449 | The IOP channel waits under the same conditions; with tag transfer off it throws at every tag, a sender without looking at the FIFO. |
| TagTransfer.IopStopsExactly | liborbum/src/Controller/Iop/Dmac/CIopDmac.cpp:216-240 | Without data left an IOP channel stops if and only if its last tag says so by bit 31, or by bit 30 with the interrupt enable, and a sender has drained. |
| TagTransfer.TagCrossesSif0 | liborbum/src/Controller/Iop/Dmac/CIopDmac.cpp:364-415 | What the EE sets up after a SIF0 tag is given by the bit fields of the words at TADR + 8 and TADR + 12 of IOP memory. |
| TagTransfer.TagCrossesSif1 | liborbum/src/Controller/Ee/Dmac/CEeDmac.cpp:521-540 | What the IOP sets up after a SIF1 tag is given by the bit fields of the upper two words of the tag in EE memory. |
| IopDmac.IopDmacChannel.WriteChcr | liborbum/src/Resources/Iop/Dmac/IopDmacChannelRegisters.cpp:23-37 | A CHCR write resets the transfer state if and only if START goes from 0 to 1; channels wired in one direction keep it. |
| IopDmac.IopDmac.TransferData | liborbum/src/Controller/Iop/Dmac/CIopDmac.cpp:287-346 | One word moves between IOP memory and the FIFO if it is ready, upwards or downwards. |
| IopDmac.IopDmac.ReadChainSourceTag | liborbum/src/Controller/Iop/Dmac/CIopDmac.cpp:364-415 | The tag's upper half enters the FIFO and its transfer is set up, if there is room for it. |
| IopDmac.IopDmac.ReadChainDestTag | liborbum/src/Controller/Iop/Dmac/CIopDmac.cpp:417-449 | A destination tag is taken from the FIFO if a quadword is queued. |
| IopDmac.IopDmac.TransferChain | liborbum/src/Controller/Iop/Dmac/CIopDmac.cpp:188-271 | A chain mode step has exactly the effect of IopChainStep. |
| Sif0Stream.IopStepSends | liborbum/src/Controller/Iop/Dmac/CIopDmac.cpp:188-271 | One IOP step pushes exactly the next bytes of the packets that its tag list means. |
| Sif0Stream.DestRunDelivers | liborbum/src/Controller/Ee/Dmac/CEeDmac.cpp:279-373 | The EE destination chain run over a well-formed packet stream stores exactly the payloads at the tag addresses and reads exactly the headers as tags. |
| Sif0.LinkDelivers | liborbum/src/Controller/Iop/Dmac/CIopDmac.cpp:188-271 | Under every interleaving of both DMACs and the FIFO's bytes no step throws, the EE parses only header quadwords as tags, in order, and once it stops its memory is the initial one with exactly the IOP payloads, in order. |
| Sif0.ProductiveDecreases | liborbum/src/Controller/Ee/Dmac/CEeDmac.cpp:163-203 | Every step that changes something lowers a measure over bytes to send, in flight and to store. |
| Sif0.NeverStuck | liborbum/src/Controller/Iop/Dmac/CIopDmac.cpp:207-345 | Until both channels have stopped some step of the link changes something. |
| Sif0.LinkCompletes | liborbum/src/Controller/Ee/Dmac/CEeDmac.cpp:291-371 | A run of changing steps has bounded length, and one that cannot continue has both channels stopped and everything delivered. |
| Sif1Stream.TagIsPacket | liborbum/src/Controller/Ee/Dmac/CEeDmac.cpp:521-554 | A source tag list with tag transfer means the packet of its first tag (transferred half, then data) followed by the packets of the rest. |
| Sif1Stream.PacketsAreList | liborbum/src/Controller/Ee/Dmac/CEeDmac.cpp:279-373 | A closed tag list means as a stream exactly its packets, one for each tag, in order; and it has packets if and only if it has a meaning. |
| Sif1Stream.IopRunDelivers | liborbum/src/Controller/Iop/Dmac/CIopDmac.cpp:188-271 | The IOP destination chain run over a well-formed packet stream stores exactly the payload words at the tag addresses, upwards or downwards, and reads exactly the headers as tags. |
| Sif1.LinkDelivers | liborbum/src/Controller/Ee/Dmac/CEeDmac.cpp:279-373 | For the packets of the EE's own tag list, under every interleaving of both DMACs, the FIFO's bytes and writes to the shared registers, no step throws, the IOP parses only transferred tags as tags, in order, and once it stops its memory is the initial one with exactly the EE payloads, in order. |
| Sif1.ProductiveDecreases | liborbum/src/Controller/Iop/Dmac/CIopDmac.cpp:188-346 | Every step that changes something lowers a measure over quadwords to send, bytes in flight, tags, starts and stops. |
| Sif1.NeverStuck | liborbum/src/Controller/Ee/Dmac/CEeDmac.cpp:279-373 | Until both channels have stopped some step of the link changes something, unless stall control holds the EE channel back. |
| Sif1.LinkCompletes | liborbum/src/Controller/Iop/Dmac/CIopDmac.cpp:188-271 | A run of changing steps has bounded length, and one that cannot continue without being held back has both channels stopped and everything delivered. |
| Tlb.MaskValues | liborbum/src/Resources/Ee/Core/EeCoreTlbEntry.hpp:9-45 | Of all 32-bit page masks the constructor accepts exactly those whose low 12 bits are one of the seven page sizes, and its two masks have the stated values. |
| Tlb.MasksPartition | liborbum/src/Resources/Ee/Core/EeCoreTlbEntry.hpp:9-45 | Tag, even/odd and offset masks of every valid page mask partition the 32 address bits, and the even/odd bit is the page size. |
| Tlb.MatchIsRange | liborbum/src/Resources/Ee/Core/EeCoreTlb.cpp:58-91 | An entry other than the scratchpad's matches exactly the addresses of its aligned pair of pages, and nothing if its VPN2 is not aligned. |
| Tlb.ScratchpadMatch | liborbum/src/Resources/Ee/Core/EeCoreTlb.cpp:58-91 | The scratchpad entry matches also the aligned 16 KB that its VPN2, less the lowest bit, starts. |
| Tlb.FindFirst | liborbum/src/Resources/Ee/Core/EeCoreTlb.cpp:10-41 | The search finds the matching entry that is first in probe order, and none if and only if none of 0 to 46 matches. |
| Tlb.SearchOrder | liborbum/src/Resources/Ee/Core/EeCoreTlb.cpp:10-41 | Entry 0 is preferred to 13 to 30, those to 1 to 12, those to 31 to 46, and within each range the lowest. |
| Tlb.Entry47NeverFound | liborbum/src/Resources/Ee/Core/EeCoreTlb.cpp:34-40 | Whatever entry 47 holds does not change the result of the search. |
| Tlb.EeCoreTlb.FindTlbEntryIndex | liborbum/src/Resources/Ee/Core/EeCoreTlb.cpp:10-41 | The five probe loops compute the specified search. |
| Tlb.EeCoreTlb.SetTlbEntryAt | liborbum/src/Resources/Ee/Core/EeCoreTlb.cpp:93-96 | Exactly the indexed entry is replaced. |
| Translation.SupervisorSegment | liborbum/src/Controller/Ee/Core/CEeCore.cpp:529-541 | In supervisor context an address error is raised if and only if the address is above 0xDFFFFFFF. |
| Translation.UserSegment | liborbum/src/Controller/Ee/Core/CEeCore.cpp:514-528 | In user context an address is rejected, with exception 4 or 5, if and only if it is above 0x7FFFFFFF. |
| Translation.KernelSegment | liborbum/src/Controller/Ee/Core/CEeCore.cpp:543-575 | In kernel context kseg0 and kseg1, and kuseg with ERL set, are unmapped at their bases, and the TLB decides on the rest. |
| Translation.PageBaseIsMask | liborbum/src/Common/Types/TranslationCache/TranslationCache.hpp:35-43 | The cache key and offset masks split an address into its 4 KB page and the rest. |
| Translation.PageHomogeneous | liborbum/src/Controller/Ee/Core/CEeCore.cpp:514-649 | An address translates as its 4 KB page does, with the offset added, and fails with the same exception if the page fails. |
| Translation.WriteAgainstRead | liborbum/src/Controller/Ee/Core/CEeCore.cpp:608-626 | A write translates as a read, faults with TLB_MODIFIED exactly where only the write fails, and otherwise with the store counterpart of the read's exception. |
| Translation.EntryIsLinear | liborbum/src/Controller/Ee/Core/CEeCore.cpp:603-649 | The even or odd page is chosen by the half of the range the address is in, and an aligned frame is mapped linearly. |
| Translation.EntryDecides | liborbum/src/Controller/Ee/Core/CEeCore.cpp:587-626 | Where the TLB finds an entry a read succeeds if and only if it is global or has the ASID and the page that holds the address is valid, and a write if and only if the page is dirty too; the exceptions are 2, and 1 or 3. |
| Translation.NoEntry | liborbum/src/Controller/Ee/Core/CEeCore.cpp:577-585 | Without an entry a read raises exception 2 and a write 3. |
| Translation.PageByHalf | liborbum/src/Controller/Ee/Core/CEeCore.cpp:603-606 | The page that holds an address is the odd one if and only if the address is in the upper half of the range. |
| Translation.EntryGives | liborbum/src/Controller/Ee/Core/CEeCore.cpp:628-649 | The address is at 0x70000000 plus the low 14 bits for the scratchpad entry, and else the frame joined with the offset in the page. |
| LruCache.RunValid | utilities/src/Caches.hpp:99-153 | In every run that inserts on a miss keys stay distinct, stamps stay within the clock, the size within its bound, and a cached value is the last one inserted for its key. |
| LruCache.GetKeeps | utilities/src/Caches.hpp:99-117 | A hit changes no key or value and makes its entry's stamp higher than all others. |
| LruCache.InsertKeeps | utilities/src/Caches.hpp:120-153 | An insertion caches its key and loses exactly the victim, if there is one. |
| LruCache.InsertedIsRecent | utilities/src/Caches.hpp:120-127 | A new entry has the current clock as its stamp, which no other exceeds. |
| LruCache.EvictedOnlyWhenOld | utilities/src/Caches.hpp:99-153 | After a hit a key is evicted only once at least as many other distinct keys have been accessed as the cache has entries, in spite of tied stamps. |
| LruCache.LastHitEvictedExactly | utilities/src/Caches.hpp:134-153 | In a full cache an entry with the latest stamp is evicted if and only if all stamps are equal and it is the first. |
| LruCache.TimestampLruCache.GetEntry | utilities/src/Caches.hpp:99-117 | The array search and stamp update compute Get and return the cached value or nothing. |
| LruCache.TimestampLruCache.InsertEntry | utilities/src/Caches.hpp:120-127 | The array update computes Insert. |
| LruCache.TimestampLruCache.FindEvictionEntry | utilities/src/Caches.hpp:135-153 | The next free entry, or the first one with the lowest stamp. |
| EeCoreSpec.EretResumes | liborbum/src/Controller/Ee/Core/CEeCore.cpp:325-432 | ERET after an exception resumes at the interrupted instruction or the branch before it, and restores the levels if and only if the exception was level 1 and ERL was clear. |
| EeCoreSpec.NestedKeepsReturn | liborbum/src/Controller/Ee/Core/CEeCore.cpp:383-393 | An exception within an exception keeps the return addresses. |
| EeCoreSpec.HandlerIsNext | liborbum/src/Controller/Ee/Core/CEeCore.cpp:345-427 | Interrupts, Reset and NMI continue at the handler. After any other exception the handler is executed next if and only if the exception is not a nested one in a delay slot, or the branch goes to the handler. |
| EeCoreSpec.NextInstruction | liborbum/src/Controller/Ee/Core/CEeCore.cpp:363-432 | The address executed after each exception is 0xBFC00000 for Reset and NMI, and else 0x80000000 or, with BEV or DEV, 0xBFC00200, plus 0, 0x80, 0x100, 0x180 or 0x200 by exception and EXL; only a nested one in a delay slot goes to the branch target. |
| EeCoreSpec.RaiseRecords | liborbum/src/Controller/Ee/Core/CEeCore.cpp:325-393 | Code, level, return address and branch flag go to the registers of the level of the exception, and nothing else in COP0 changes. |
| EeCoreSpec.EretContinues | liborbum/src/Controller/Ee/Core/Interpreter/CEeCoreInterpreter_BREAK_TRAP.cpp:207-239 | ERET continues at ErrorEPC or EPC by ERL, clears just that level, and empties both caches. |
| EeCoreSpec.RaiseContext | liborbum/src/Controller/Ee/Core/CEeCore.cpp:363-432 | Every exception ends in kernel context and with empty translation caches, but for Reset and NMI. |
| EeCoreSpec.LookupTransparent | liborbum/src/Common/Types/TranslationCache/TranslationCache.hpp:33-73 | In a coherent state reads are exact, writes are exact if and only if their page is not both clean and cached, every address returned is a read's, and a failure raises the slow path's exception. |
| EeCoreSpec.LookupCoherent | liborbum/src/Common/Types/TranslationCache/TranslationCache.hpp:33-73 | Lookups, hit or miss, with or without eviction or exception, keep the caches coherent. |
| EeCoreSpec.FailureRecords | liborbum/src/Controller/Ee/Core/CEeCore.cpp:495-511 | A failed lookup leaves the code in ExcCode, the page in BadVAddr, its bits 13 to 31 in BadVPN2 and VPN2, and 47 in Random. |
| EeCoreSpec.CacheHoldsSix | liborbum/src/Controller/Ee/Core/CEeCore.hpp:71-72 | A newly read page joins up to five others in a cache, and replaces one of six. |
| EeCoreSpec.CachedTranslationIsExact | liborbum/src/Controller/Ee/Core/CEeCore.cpp:434-650 | The same after every run of loads, stores, fetches, exceptions, returns, TLB writes and COP0 writes that keep operating context, ERL and ASID. |
| EeCoreSpec.ReadsExactIffAgrees | liborbum/src/Common/Types/TranslationCache/TranslationCache.hpp:33-44 | In any state reads are exact if and only if every cached page is what the slow path gives for it. |
| EeCoreSpec.AsidWriteExactly | liborbum/src/Controller/Ee/Core/CEeCore.cpp:588-601 | A new ASID leaves reads exact if and only if no cached page is translated by a non-global TLB entry. |
| EeCoreSpec.ResetExactly | liborbum/src/Controller/Ee/Core/CEeCore.cpp:363-373 | Reset and NMI leave reads exact if and only if every cached page of a segment that is unmapped at the error level has the address of that segment: pages up to 0x7FFFFFFF map to themselves. |
| EeCoreSpec.Cop0WriteExactly | liborbum/src/Controller/Ee/Core/CEeCore.cpp:514-601 | Any write of Status and EntryHi leaves reads exact if and only if every cached page survives: its new unmapped segment gives its address, or it stays mapped and the ASID is the same or its entry global, or it becomes mapped and the TLB gives its address. |
| EeCoreSpec.EnterUserExactly | liborbum/src/Controller/Ee/Core/CEeCore.cpp:514-528 | Going from kernel to user context, ERL clear, leaves reads exact if and only if no page above 0x7FFFFFFF is cached. |
| EeCoreSpec.ClearErlExactly | liborbum/src/Controller/Ee/Core/CEeCore.cpp:543-580 | Clearing ERL in kernel context leaves reads exact if and only if the TLB maps every cached page up to 0x7FFFFFFF to itself. |
| EeCoreSpec.ReadHidesCleanPage | liborbum/src/Common/Types/TranslationCache/TranslationCache.hpp:33-44 | After a read of a clean page a write to it raises no exception. |
| EeCoreSpec.StaleWithoutFlush | liborbum/src/Controller/Ee/Core/CEeCore.cpp:367-373 | A state in which a change of ASID, or a Reset, leaves a page cached that the slow path no longer gives. |
| EeCoreSpec.StaleAfterStatusWrite | liborbum/src/Controller/Ee/Core/Interpreter/CEeCoreInterpreter_SPECIAL_TRANSFER.cpp:192-203 | A page that is cached with ERL set still reads as address 0 after a Status write has cleared ERL, where the slow path gives 0x1000. |
| EeCore.EeCore.HandleException | liborbum/src/Controller/Ee/Core/CEeCore.cpp:325-432 | COP0, PC, pending branch and caches become exactly those of Raise. |
| EeCore.EeCore.ReturnFromException | liborbum/src/Controller/Ee/Core/Interpreter/CEeCoreInterpreter_BREAK_TRAP.cpp:207-239 | The new state is exactly that of Eret. |
| EeCore.EeCore.WriteTlbEntry | liborbum/src/Controller/Ee/Core/Interpreter/CEeCoreInterpreter_OTHERS.cpp:119-207 | A TLB write replaces the entry and flushes both caches, which is exactly the WriteTlb step of the runs, and fails without effect if and only if the page mask is invalid. |
| EeCore.EeCore.TranslateAddressFallback | liborbum/src/Controller/Ee/Core/CEeCore.cpp:487-650 | The slow path returns the address of Translate and changes nothing, or records the address and raises its exception. |
| EeCore.EeCore.Lookup | liborbum/src/Common/Types/TranslationCache/TranslationCache.hpp:33-73 | A cached lookup computes LookupAddress, including the exception on failure. |
| EeCore.EeCore.TranslateAddressData | liborbum/src/Controller/Ee/Core/CEeCore.cpp:434-459 | Data accesses look up through the data cache. |
| EeCore.EeCore.TranslateAddressInst | liborbum/src/Controller/Ee/Core/CEeCore.cpp:461-485 | Fetches look up through the instruction cache, as reads. |
| Executor.RunKeepsInv | utilities/src/TaskExecutor.hpp:95-171 | In every schedule of any number of workers every task of the batch is in exactly one place, the counter counts the busy workers, the lock has one holder, and each error is accounted for. |
| Executor.Barrier | utilities/src/TaskExecutor.hpp:154-171 | Past both waits every task has run exactly once, no worker is between its pop and its decrement, the executor is ready for the next batch, and wait_for_idle throws if and only if an error is queued; it gets there only if all errors fit. |
| Executor.WakeUpIsOnItsWay | utilities/src/Queues.hpp:48-52 | Whenever the main thread sleeps on a condition that holds, some worker's next step wakes it. |
| Executor.StepsDecrease | utilities/src/TaskExecutor.hpp:95-171 | Every step but a spurious wake-up lowers a measure over tasks, workers and the main thread. |
| Executor.NeverStuck | utilities/src/TaskExecutor.hpp:95-171 | Until wait_for_idle has ended some thread can step, provided there is a worker and room for every error. |
| Executor.BatchEnds | utilities/src/TaskExecutor.hpp:144-171 | Under every schedule without spurious wake-ups a batch ends within a bounded number of steps, on the same condition. |
| Executor.DispatchHasRoom | utilities/src/TaskExecutor.hpp:144-152 | Dispatching at most 128 tasks never finds the running queue full. |
| Executor.TakesOldest | utilities/src/Queues.hpp:69-123 | A worker takes the oldest task, or leaves the queue alone. |
| Executor.OldestErrorThrown | utilities/src/TaskExecutor.hpp:162-170 | In every schedule wait_for_idle throws the oldest error, left over or not, and the others keep their order. |
| CoreRun.SlicesComplete | liborbum/src/Core.cpp:190-214 | Over any number of runs of the core each run ends with exactly its own tasks run once, throws if and only if an error of its own or a left-over one is found, and leaves all but one of them to the next. |
| CoreRun.LeftOverErrorThrows | utilities/src/TaskExecutor.hpp:154-171 | A run whose handlers all succeed throws if and only if an earlier run left an error. |
| CoreRun.DispatchSlice | liborbum/src/Core.cpp:190-211 | Building and dispatching a batch fills the running queue with the events of the run in order, and the dispatching main thread of the executor protocol fills its running queue with exactly one task for each. |
| CoreRun.SliceProceeds | utilities/src/TaskExecutor.hpp:144-171 | A run of at most 110 queued events always finds room to dispatch, is bounded, and some thread can step until it ends. |
| Queues.MpmcQueue.TryPop | utilities/src/Queues.hpp:69-123 | The oldest item leaves a non-empty queue; a given counter is raised under the lock exactly then; the pop notification is issued exactly then, and the empty notification exactly when it was the last item. |
| Queues.MpmcQueue.TryPush | utilities/src/Queues.hpp:91-137 | The item joins a queue with room; the push notification is issued exactly then, and the full notification exactly when it took the last of the room. |
| Queues.WorkOnce | utilities/src/TaskExecutor.hpp:95-116 | One pass of a worker takes the oldest task, queues its error if it throws, and leaves the busy counter as it was, unless there is no room for the error. |
| Batch.Core.EnqueueTimeEvents | liborbum/src/Core.cpp:190-196 | The time events of all controllers join the event queue in order; the loop is stuck if and only if they do not all fit. |
| Batch.Core.EnqueueTasks | liborbum/src/Core.cpp:198-208 | Every event becomes a task, in order, and no push waits. |
| Batch.Core.Dispatch | utilities/src/TaskExecutor.hpp:144-152 | Every pending task joins the running queue, in order, and with room for all of them no push waits. |
| Batch.Core.DispatchBatch | liborbum/src/Core.cpp:190-211 | A run that starts idle is stuck building its batch if and only if more than 110 events are queued; otherwise the batch is those and the time events, in order. |
| TimersSpec.PeriodicTimer | liborbum/src/Controller/Ee/Timers/CEeTimers.cpp:53-140 | A reset timer with prescale p and compare c has count (n div p) mod c after n ticks, among any other events, and a tick raises the interrupt if and only if n is then a multiple of p*c, or n is 1 and an old overflow flag is set with the overflow interrupt on. |
| TimersSpec.FreeRunningTimer | liborbum/src/Resources/Ee/Timers/EeTimersUnitRegisters.cpp:13-42 | Without zero return the count is a function of n div p that runs through 1 to 65535 over and over, and the compare and overflow interrupts are raised exactly on the ticks that leave it at the compare value, that wrap it, or that find an old overflow flag. |
| TimersSpec.LatchResets | liborbum/src/Controller/Ee/Timers/CEeTimers.cpp:62-71 | After a MODE write the next tick starts from a reset unit, whatever it held, except for the overflow flag, which it keeps. |
| TimersSpec.ModeFields | liborbum/src/Resources/Ee/Timers/EeTimersUnitRegisters.hpp:57-64 | The fields of MODE are at their bits of the register. |
| TimersSpec.ClockSelects | liborbum/src/Resources/Ee/Timers/EeTimersUnitRegisters.cpp:83-106 | CLKS selects every tick, every 16th, every 256th or every horizontal blank; a gate throws but for the one special case. |
| TimersSpec.StaleOverflowInterrupts | liborbum/src/Resources/Ee/Timers/EeTimersUnitRegisters.cpp:27-50 | A unit that wraps with the overflow interrupt off raises it, with the count at 1, at the first tick after a narrow MODE write that turns it on and a word write that resets the unit. |
| TimersSpec.WordWriteKeepsMode | liborbum/src/Resources/Ee/Timers/EeTimersUnitRegisters.cpp:57-76 | A word write over the EE bus clears those of bits 10 and 11 that it writes as 1 and keeps every other bit. |
| TimersSpec.OldOverflowExactly | liborbum/src/Resources/Ee/Timers/EeTimersUnitRegisters.cpp:27-76 | In every run of ticks, word writes and narrow writes an old overflow with its interrupt on arises if and only if a narrow write turns the interrupt on while the flag is set. |
| Timers.EeTimersUnit.Increment | liborbum/src/Resources/Ee/Timers/EeTimersUnitRegisters.cpp:13-35 | The prescaler loop adds the quotient to the count and keeps the remainder, with the wrap modulo 65535. |
| Timers.EeTimers.TickUnit | liborbum/src/Controller/Ee/Timers/CEeTimers.cpp:58-97 | One event at one unit has exactly the effect of Tick, and sets exactly that unit's interrupt bit. |
| Timers.EeTimers.TickTimer | liborbum/src/Controller/Ee/Timers/CEeTimers.cpp:53-98 | Every unit before the first gated one that would count is ticked once, the others not at all, and exactly the interrupt bits of ticked units that raise them are added; the loop fails if and only if there is such a unit. |

## Left out

- CALL and RET lists have no meaning here, because the code saves the address after TADR has been overwritten
  and RET reads an entry that CALL did not write (`DmacRegisters.RetResumesExactly`).
- Interleaved mode, MFIFO, linked-list mode, and destination tags with tag transfer, which throws.
- D_CTRL.DMAE, the order in which `time_step` visits the channels and the interrupt line raised from D_STAT.
- CHCR is modelled by its decoded fields; its register encoding is covered by the bitfield results only.
- The IOP normal modes and the block count arithmetic of BCR; the SBUS notifications of the SIF channels.
- The memory that a source chain or a source in normal mode reads, and the EE memory behind SIF1, does not
  change during a run of `SourceTransfer`, `SourceProgress`, `Sif1` or, for IOP memory, `Sif0`.
- SIF0 memory is written by the link alone, and in normal mode by the channel alone; for stall control other
  writers are allowed outside the area.
- StallControl.DrainFollowsSource: covers one area in one direction, which the data of the tags makes up
  without gaps; D_STADR is at its start; a restart of either channel while the other is running is not part
  of a run.
- Sif1.LinkDelivers: assumes that the length in words of each transferred tag is four times the QWC of
  its EE tag, and exactly one stopping tag, at the end; the IOP reads past the end or waits otherwise.
- Sif0.LinkDelivers: assumes that each IOP tag's rounded length is four times the QWC of its EE tag, and
  exactly one closing tag on each side; the EE reads past the end or stalls otherwise.
- The debug-build exceptions of `ByteBus::get_page` and the width-checked accessors. What the code does after
  indexing past a vector is undefined; the model stops there with an outcome of its own.
- Channel 8 in direction To, for which the controller has no FIFO.
- TLBR, TLBP and the decoding of COP0 registers, also by TLBWI and TLBWR; Index and Random values of 48
  and above; KSU = 3, on which the code throws. PC advance is modelled only as far as exceptions need it.
- The fallback is given the page base, so that BadVAddr loses its low bits; the model keeps this.
- The gate function of the timers, which throws. Writes of MODE from other buses than the EE's.
- The executor's threads, counter and queues are one value that the steps of `Executor` change, not objects,
  since they are shared between threads; `Queues` has the queue and the counter as objects for a single
  thread.
- The directories and page vectors of ByteBus are values held in the bus object's table.
- CoreRun.SliceProceeds: assumes that the events which handlers queue during a run, as the CRTC does for
  HBlank, find room in the event queue; otherwise the push waits and keeps its worker busy. They are part of
  the events queued before the next run.
- Executor.Barrier: mutex-held sections are atomic steps and a task is a step that may throw; C++ memory
  ordering, time-outs and the exit flags are not modelled. Spurious wake-ups are.
- Time-to-tick conversion: any number of ticks is allowed. Instruction decoding, the address map, graphics,
  sound, CDVD, serialisation, logging and ROM loading.
