# Verified models of the OOOWS virtual machine

OOOWS is a small hypervisor with its devices and guest kernel: a multi-threaded monitor, a network card
with its own four-context processor and assembler, virtio devices, a 9P file server, and a kernel
with a first-fit allocator. This project models the parts where behaviour is hard to see by
reading one function, and proves what holds for every input, every run and every interleaving.
`dafny verify dfyconfig.toml` checks everything.

Code that the repository writes as in-place updates is modelled by classes and loops whose contracts tie the
new state to a value-level function; the theorems are then about those functions and about state
machines built from them. A run is a sequence of events, each event one atomic action of one thread.

| files | part of the system |
|---|---|
| `Words`, `Isa`, `Assembler` | instruction words, bitfield layouts, the assembler |
| `Microengine`, `AluMeaning`, `InstructionMeaning`, `MultiwordAdd` | the interpreter, one instruction at a time, and what the instructions mean |
| `MicroMachine`, `SyncRefinement` | interpreter, memory workers and FIFO threads together |
| `GuestMemory`, `VirtioMmio`, `VirtioRegisters`, `VirtioRing`, `VirtioSteps` | guest memory access, virtio registers, the split queue, as whole calls and store by store |
| `P9Wire`, `P9Messages`, `P9Paths`, `P9Server`, `P9Effects`, `P9Pipeline`, `P9EndToEnd`, `P9Client` | the 9P server, from bytes to the two server threads, and what a client sees of it |
| `Vcpus`, `VcpuSleep`, `Interrupts` | vCPU halting and waking, interrupt delivery |
| `HeapBlocks`, `HeapRuns`, `Heap` | the guest kernel's allocator |
| `WorkQueue` | the device thread pool's queue |

Main results, and where the code falls short of what one would expect of it:

- Asynchronous scratch and RAM transfers refine transfers performed at issue time
  (`SyncRefinement.AsyncRefinesSync`), for programs that keep to their own register banks.
- Assembling and fetching is the identity for programs of any length (`Assembler.Assemble`), for every opcode
  but RTN, which the interpreter reads with another layout (`Assembler.DispatchAgrees` is an equivalence).
- The device takes virtio buffers in posting order if and only if the queue size divides 65536
  (`VirtioRing.FifoIffSizeDivides`); the kernel's own queues of 20 buffers are not in order
  (`VirtioRing.TwentyBuffersFail`). The device does not check for a power of two. A buffer is
  given back if and only if memory goes on for eight bytes behind the used area, where `put_buf` writes,
  and the number of buffers held is not a multiple of 65536 (`VirtioRing.DividingRun`). The order
  is kept under the same condition when driver and device interleave store by store and load by load
  (`VirtioSteps.InterleavesIffSizeDivides`, `VirtioSteps.EveryInterleaving`).
- Every interrupt that the I/O APIC accepts is queued, in a thread's hand, injected or dropped
  (`Interrupts.InterruptDelivery`); which of the last two is an equivalence (`Interrupts.DroppedIff`), and
  any deliverable interrupt raised twice before its EOI is lost the second time (`Interrupts.SecondRaiseLost`).
- What each instruction, each 9P request and each virtio register write does is stated apart from the code that
  does it (`InstructionMeaning`, `P9Effects` and `P9Client`, `VirtioRegisters`).
- Every 9P fid keeps a live object with the right reference count, whatever the root; one request breaks this, a
  zero-name walk of the last fid of an object onto itself, and no other does
  (`P9Server.StepKeepsOwnership`, `P9Server.CloneReachable`).
- The server's objects stay in the share if and only if the configured root is its own `realpath`
  (`P9Server.ServerContainmentIff`).
- The guest's builders and the server's constructors agree byte for byte (`P9Messages`), and the 9P
  pipeline completes buffers as a sequential server would, in every interleaving, from encoded request to
  reply (`P9EndToEnd.EndToEnd`).
- The vCPU threads never all sleep with nobody marked running (`VcpuSleep.NoGlobalSleep`), although
  the scan takes no lock. The comment beside it says that it does; a scan can be overtaken by exactly
  one kind of step, and its verdict is wrong exactly then (`VcpuSleep.VerdictWrongIff`,
  `VcpuSleep.ShutdownOvertaken`).
- `malloc` is sound if and only if its search does not end in a misfit (`HeapBlocks.MallocSoundIff`);
  `merge` reads through a null pointer if and only if the list ends with an even, non-zero number of free blocks
  (`HeapBlocks.MergeFailsIff`), which freeing the first block ever allocated already causes
  (`HeapRuns.FirstFreeFails`).

## Model

| member | source | states |
|---|---|---|
| Isa.DecodedFieldsFit | devices/broadcooom/types.hpp:139-220 | whatever five bytes are fetched, every decoded field is within its bitfield's range, so operands and targets are always usable |
| Isa.DecodedFields | devices/broadcooom/types.hpp:139-210 | every field of every format is found at its bit position and width, counted from the least significant bit of the word |
| Assembler.MirroredByte | devices/broadcooom/assembler.py:650-671 | a byte filled from the top and then mirrored has the first packed bit least significant |
| Assembler.ImageOfBits | devices/broadcooom/assembler.py:650-671 | the mirrored bytes, read little-endian, are the packed bits of the whole word |
| Assembler.BitfieldsReadPackedValues | devices/broadcooom/types.hpp:139-220 | reading packed bitfields gives back exactly the values that were packed, in order, for any list of widths |
| Assembler.WidthsAgree | devices/broadcooom/types.hpp:139-220 | every format string begins with the widths of the struct that reads it |
| Assembler.DispatchAgrees | devices/broadcooom/microengine.cpp:183-228 | the interpreter uses the layout the assembler wrote if and only if the opcode is not RTN |
| Assembler.InstructionRoundTrip | devices/broadcooom/assembler.py:128-244 | decoding an assembled instruction gives that instruction, for all field values that fit |
| Assembler.ExtractLabels | devices/broadcooom/assembler.py:614-626 | succeeds if and only if labels are unique, with the table from each label to its statement's index |
| Assembler.ResolveTargets | devices/broadcooom/assembler.py:628-640 | succeeds if and only if every target is defined; each result denotes its statement |
| Assembler.ChangeEndiannessOfEachByte | devices/broadcooom/assembler.py:642-648 | mirrors every byte and keeps their order |
| Assembler.Emit | devices/broadcooom/assembler.py:650-671 | succeeds if and only if every field fits; word i of the image is instruction i |
| Assembler.FetchEmitted | devices/broadcooom/microengine.cpp:183-228 | fetching word i of an emitted image gives instruction i |
| Assembler.AssemblableByTable | devices/broadcooom/assembler.py:614-671 | the table-driven checks accept exactly the programs whose statements all denote encodable instructions |
| Assembler.Assemble | devices/broadcooom/assembler.py:614-671 | accepts exactly the assemblable programs; fetching word i gives statement i with its label replaced by the labelled statement's index |
| Microengine.LoadFieldSelects | devices/broadcooom/microengine.cpp:697-738 | bit k of the result comes from the source if the mask selects it, else from the old destination |
| Microengine.RegisterNamed | devices/broadcooom/microengine.cpp:864-888 | absolute operands name registers by number; relative ones the context's 32 general, 16 write and 16 read registers; larger numbers wrap around |
| Microengine.Engine.constructor | devices/broadcooom/microengine.cpp:63-96 | all registers, counters and flags clear, all contexts ready, all queues empty, the CRC table in its place in RAM and the rest of RAM as it was |
| Microengine.Engine.ThreadReadyToRun | devices/broadcooom/microengine.cpp:117-143 | the selection loop ends, within four steps, on the first ready context in cyclic order |
| Microengine.AllSkipped | devices/broadcooom/microengine.cpp:117-143 | four unready contexts in a row are all the contexts, so the loop cannot miss a ready one |
| Microengine.Engine.InterpretAlu | devices/broadcooom/microengine.cpp:230-348 | registers, flags and last result change as the value-level instruction says, for the current context only |
| Microengine.Engine.InterpretImmediate | devices/broadcooom/microengine.cpp:350-421 | one register of the current context changes, to the assembled value |
| Microengine.Engine.InterpretLoad | devices/broadcooom/microengine.cpp:697-738 | one register changes to the masked combination; the clearing form reads the source after clearing |
| Microengine.Engine.BytemaskToBitmask | devices/broadcooom/microengine.cpp:823-846 | the shifting loop yields one 0xff byte per set mask bit |
| Microengine.Engine.InterpretBranch | devices/broadcooom/microengine.cpp:623-695 | only the current context's counter changes, as the value-level instruction says; when that is, InstructionMeaning.BranchMeaning states |
| Microengine.Engine.InterpretCsr | devices/broadcooom/microengine.cpp:740-767 | the destination gets the control register; unknown numbers change nothing |
| Microengine.Engine.PostJob | devices/broadcooom/microengine.cpp:535-621 | the job goes to the end of its queue, the context sleeps and yields if and only if it asked for a swap, and no register changes |
| Microengine.Engine.InterpretInstruction | devices/broadcooom/microengine.cpp:183-228 | dispatch of a whole instruction: registers, queues, readiness and current context all as specified |
| Microengine.Engine.HandleMemory | devices/broadcooom/microengine.cpp:424-499 | one round of a worker performs exactly the oldest job and wakes exactly its context; which words move, InstructionMeaning.TransferMeaning states |
| AluMeaning.ShiftBits | devices/broadcooom/microengine.cpp:281-330 | a shift moves every bit by the amount and fills with zeros |
| AluMeaning.LogicalBits | devices/broadcooom/microengine.cpp:266-277 | NOT, AND, OR and XOR act on each bit alone |
| AluMeaning.SubtractionUndone | devices/broadcooom/microengine.cpp:254-262 | addition undoes both directions of subtraction |
| AluMeaning.SignAfterMinus | devices/broadcooom/microengine.cpp:254-313 | the sign flag after a subtraction orders the operands if and only if the difference fits in 32 bits |
| AluMeaning.ImmediateBytes | devices/broadcooom/microengine.cpp:350-421 | each byte form replaces exactly its byte, each word form its two bytes, and every other byte stays |
| InstructionMeaning.StoreMoves | devices/broadcooom/microengine.cpp:424-499 | a write job of any length leaves the registers' values in consecutive words of its memory; all other words, the other memory and all registers stay |
| InstructionMeaning.FetchMoves | devices/broadcooom/microengine.cpp:424-499 | a read job of any length leaves the memory's words in consecutive registers; all other registers and both memories stay |
| InstructionMeaning.TransferPostedIff | devices/broadcooom/microengine.cpp:535-567 | a memory instruction posts a transfer if and only if its register is in the bank of its direction |
| InstructionMeaning.TransferMeaning | devices/broadcooom/microengine.cpp:535-621 | the transfer works on the memory the opcode names, at the 32-bit sum of the address registers, for the given count or that of the last ALU result, and wakes its context if and only if it swapped out |
| InstructionMeaning.FifoMeaning | devices/broadcooom/microengine.cpp:769-821 | a FIFO instruction posts its size register and address to the queue of its opcode and changes no register |
| InstructionMeaning.BranchMeaning | devices/broadcooom/microengine.cpp:623-695 | each branch goes to its target if and only if its operands are the same bits, or the difference of their two's complement values has the right sign, or the first is the context's number; nothing else changes, no other context's counter either |
| InstructionMeaning.OppositeBranches | devices/broadcooom/microengine.cpp:636-689 | EQ and NEQ, LESS and GREATER_EQ, LESS_EQ and GREATER, and the two context forms: exactly one of the two branches |
| InstructionMeaning.AluSums | devices/broadcooom/microengine.cpp:245-335 | with the carry as bit 32 every kind of addition is exact; other operations clear the carry; the sign flag is bit 31 of the result |
| InstructionMeaning.AluOthers | devices/broadcooom/microengine.cpp:245-303 | every other operation, by its bits, by the addition that undoes it, or as a sum cut to its low bits |
| InstructionMeaning.ShiftedAlu | devices/broadcooom/microengine.cpp:305-335 | ALU_SHF leaves the flags of the plain instruction and its result moved by the shift amount |
| InstructionMeaning.ImmediateMeaning | devices/broadcooom/microengine.cpp:350-421 | IMMED loads its value moved up by none, one or two bytes; the others replace exactly the bytes they name; no other register changes |
| InstructionMeaning.LoadMeaning | devices/broadcooom/microengine.cpp:697-738 | LD_FIELD bit by bit: selected bytes come from the rotated source, the others stay or are cleared, and a source that is the cleared destination reads as zero |
| InstructionMeaning.CsrMeaning | devices/broadcooom/microengine.cpp:740-767 | CSR copies control register 0, 1 or 2; other numbers change nothing |
| MultiwordAdd.MultiwordSum | devices/broadcooom/microengine.cpp:245-335 | PLUS then PLUS_CARRY on k words is the exact k-word sum, the carry flag being the overflow, for every k |
| MicroMachine.StepKeepsAccount | devices/broadcooom/microengine.cpp:571-621 | every action keeps, per context: awake, or one outstanding callback, or one recorded loss |
| MicroMachine.ExecuteProceeds | devices/broadcooom/microengine.cpp:154-228 | executing moves the context's counter to the next instruction or a branch target and no other counter; exactly the instruction's job is handed over; only CTX_ARB passes the processor on at once |
| MicroMachine.WakeUpInvariant | devices/broadcooom/microengine.cpp:453-496 | in every run a context has at most one outstanding callback, none while it executes, and exactly one while asleep unless a FIFO thread dropped its job |
| MicroMachine.RotationBound | devices/broadcooom/microengine.cpp:117-143 | a context that stays ready is passed over by at most three yields |
| MicroMachine.ThirdYieldSelects | devices/broadcooom/microengine.cpp:215-219 | after three yields by others it is the one selected |
| SyncRefinement.BanksPartitionRegisters | devices/broadcooom/microengine.cpp:864-888 | (context, relative operand) maps one-to-one onto the 256 registers |
| SyncRefinement.DisciplinedJobOwned | devices/broadcooom/microengine.cpp:559-613 | a transfer that stays in its bank touches registers of the issuing context only |
| SyncRefinement.DistinctOwners | devices/broadcooom/microengine.cpp:424-499 | scratch and RAM transfers outstanding together belong to different contexts |
| SyncRefinement.ActionFlushCommute | devices/broadcooom/microengine.cpp:424-499 | an action moves past any number of independent outstanding transfers without changing the outcome |
| SyncRefinement.ContextIsolation | devices/broadcooom/microengine.cpp:864-888 | along any run, whatever the host writes, a register changes only by its own context's instructions and transfers |
| SyncRefinement.StepSimulates | devices/broadcooom/microengine.cpp:535-621 | one asynchronous action is one turn of the synchronous machine, or none |
| SyncRefinement.AsyncRefinesSync | devices/broadcooom/microengine.cpp:424-621 | every interleaving, with host writes to control registers and to memory words no outstanding transfer covers, agrees with immediate memory under the same schedule: counters and flags always, registers of ready contexts always, everything when no transfer is outstanding |
| SyncRefinement.ReadCompletes | devices/broadcooom/microengine.cpp:424-621 | a disciplined program exists: one scratch read, from issue through the worker to wake-up, ends quiescent with exactly the word read |
| GuestMemory.OobIsExact | devices/utils/mem-manager.cpp:30-51 | the 64-bit check rejects a block if and only if it is not inside memory in unbounded arithmetic |
| GuestMemory.MemoryManager.Read | devices/utils/mem-manager.cpp:57-63 | returns exactly the addressed bytes, or fails exactly when they are not all inside |
| GuestMemory.MemoryManager.Write | devices/utils/mem-manager.cpp:65-71 | changes exactly the addressed bytes, or nothing |
| VirtioMmio.MmioVirtioDev.ReadyQueue | devices/utils/virtio.cpp:380-420 | latches addresses and readies the queue only if all three areas are in bounds; otherwise changes nothing |
| VirtioMmio.MmioVirtioDev.MmioWrite | devices/utils/virtio.cpp:286-378 | each register write as the value-level step; what it leaves in every register, VirtioRegisters states |
| VirtioMmio.StepSound | devices/utils/virtio.cpp:286-420 | no write unsettles a ready queue: it stays ready, keeps its size and its areas stay in bounds; only another ready write to that queue can move the areas |
| VirtioMmio.ReadyAgainMoves | devices/utils/virtio.cpp:341-350 | a second ready write does move the descriptor table, if its address registers were rewritten |
| VirtioMmio.RunSound | devices/utils/virtio.cpp:286-420 | over every sequence of writes, queue_sel is valid and every ready queue has 0 < num_bufs < 32768 and areas inside memory |
| VirtioMmio.ReadyAccessesInBounds | devices/utils/virtio.cpp:423-579 | after any run, accesses through a ready queue to counters, slots and descriptors of the table are in bounds; put_buf's element write is if and only if eight more bytes behind the used area are memory, and the descriptor behind the table if and only if sixteen more are |
| VirtioMmio.DriverReadiesQueue | boot/kernel/virtio_drv.c:25-49 | the driver's writes make the queue ready, with the driver's addresses and size, if and only if size and areas are acceptable; other queues keep their state |
| VirtioMmio.UsedAreaAtEnd | devices/utils/virtio.cpp:558-568 | the driver can ready a queue of twenty buffers through which no buffer can ever be given back |
| VirtioRegisters.DeviceAfterWrite | devices/utils/virtio.cpp:286-378 | register by register: the selectors, the acknowledgement and each half of the features hold what was written to them, or what they held; other queues than the selected one stay |
| VirtioRegisters.QueueAfterWrite | devices/utils/virtio.cpp:327-420 | the same for the six address registers and the size of the selected queue; it is readied, with the areas its registers name, if and only if they are acceptable |
| VirtioRegisters.FeaturesHandshake | devices/utils/virtio.cpp:306-325 | selecting and writing the two feature words, in either order, leaves exactly those features, whatever was there |
| VirtioRegisters.RegistersRemember | devices/utils/virtio.cpp:286-378 | over every run each register holds the last write meant for it: each feature word the last made while its half was selected, each queue's address register the last made while that queue was selected |
| VirtioRing.Virtq.Setup | boot/kernel/virtio_drv.c:7-23 | fails if and only if the allocation of a buffer does; otherwise one buffer per descriptor has been posted, in order, if and only if both indices began at zero |
| VirtioRing.Virtq.AddBuffer | boot/kernel/virtio_drv.c:52-63 | the driver's stores into table, ring and counter are one post |
| VirtioRing.Virtq.GetBuffer | devices/utils/virtio.cpp:458-521 | returns the buffer that the tail's slot names if one is waiting and in bounds, and moves the tail; an id equal to the size reads behind the table |
| VirtioRing.Virtq.PutBuffer | devices/utils/virtio.cpp:523-579 | the used counter advances unless everything was given back or the element behind the used area is out of bounds |
| VirtioRing.TakenIff | devices/utils/virtio.cpp:458-521 | whatever the guest has written, a buffer is taken if and only if one is waiting, its id is at most the size, and the descriptor behind the table, if that is meant, and the buffer are in memory; only the tail moves |
| VirtioRing.DividingIsFifo | devices/utils/virtio.cpp:423-521 | for sizes dividing 65536, buffers are taken in posting order, once each, through any number of counter wraps and however many the device holds; they can be given back if and only if the element behind the used area is in bounds |
| VirtioRing.DividingRun | devices/utils/virtio.cpp:440-456 | after every such run, put_buf accepts if and only if that element is in bounds and the number of buffers held is not a multiple of 65536 |
| VirtioRing.HoldingAllRefused | devices/utils/virtio.cpp:440-456 | with 65536 buffers held, none can be given back, whatever the size |
| VirtioRing.OtherSizesFail | devices/utils/virtio.cpp:458-521 | for every other size a run exists in which a waiting buffer is overwritten and not taken in order |
| VirtioRing.FifoIffSizeDivides | devices/utils/virtio.cpp:423-579 | taking in order holds if and only if the size divides 65536; the whole FIFO, giving back below 65536 held included, if and only if, besides, the element behind the used area is inside memory |
| VirtioRing.TwentyBuffersFail | boot/kernel/kernel.c:147 | the kernel's twenty-buffer queues are not a FIFO |
| VirtioSteps.PostBlock | boot/kernel/virtio_drv.c:52-63 | the four stores of add_buf with nothing in between are the atomic post |
| VirtioSteps.TakeBlock | devices/utils/virtio.cpp:458-521 | the loads of get_buf with nothing in between are the atomic take, wherever the driver was stopped |
| VirtioSteps.StepKeepsInv | devices/utils/virtio.cpp:458-521 | for sizes dividing 65536, every single store or load keeps: the driver writes only behind the waiting buffers, and what the device has read so far is of the oldest one |
| VirtioSteps.EveryInterleaving | devices/utils/virtio.cpp:423-521 | for these sizes, at every point of every interleaving, the buffers taken are the first ones published, in order; get_buf never sees a buffer and returns none; the index tells exactly whether one is left; no more are given back than taken |
| VirtioSteps.NextTakeIsOldest | devices/utils/virtio.cpp:458-521 | from every such point, even with the driver stopped between two stores, the next get_buf takes the oldest buffer left |
| VirtioSteps.OtherSizesInterleave | devices/utils/virtio.cpp:458-521 | for every other size, even calls that are not interrupted take a newer buffer before an older one |
| VirtioSteps.InterleavesIffSizeDivides | devices/utils/virtio.cpp:458-521 | all interleavings take in order if and only if the size divides 65536 |
| P9Wire.RequestRoundTrip | devices/p9fs/trequests.cpp:7-504 | parsing succeeds with request r if and only if the consumed bytes are exactly r's encoding, for every request type |
| P9Wire.MessageRoundTrip | devices/ooows-p9fs.cpp:137-194 | a message that encodes a request is parsed to the same tag and request, consuming exactly the body, whatever follows it |
| P9Wire.MessageAcceptedIff | devices/ooows-p9fs.cpp:137-194 | whatever bytes arrive, a request is accepted if and only if a header with its type, tag and a size within the packet is followed by its encoding |
| P9Wire.LeDigits | devices/p9fs/trequests.cpp:7-12 | byte k of an integer field is its k-th digit to the base 256 |
| P9Wire.NameListSize | boot/kernel/p9.c:92-120 | the first loop computes the exact length of the encoded names |
| P9Wire.Reader.Read | devices/p9fs/trequests.cpp:7-12 | reads exactly l bytes and advances, or fails when fewer are claimed or present |
| P9Wire.Reader.ReadCountedBytes | devices/p9fs/trequests.cpp:16-23 | reads a count and exactly that many bytes |
| P9Wire.Reader.ReadNameList | devices/p9fs/trequests.cpp:190-204 | the loop reads the announced number of names, or fails at the first that does not parse |
| P9Messages.Guest.BuildVersion | boot/kernel/p9.c:11-28 | the field-by-field stores leave exactly the encoded request in the buffer, with its own total, and touch nothing behind it |
| P9Messages.Guest.BuildAuth | boot/kernel/p9.c:30-58 | the stores at this builder's own offsets, with its own total, leave exactly the encoded request at the front of the buffer; with the next fid; the names passed in are ignored |
| P9Messages.Guest.BuildAttach | boot/kernel/p9.c:60-90 | the stores at this builder's own offsets, with its own total, leave exactly the encoded request at the front of the buffer; with the next fid, which is returned, and no auth fid |
| P9Messages.Guest.BuildWalk | boot/kernel/p9.c:92-120 | the stores at this builder's own offsets, with its own total, leave exactly the encoded request at the front of the buffer; for any number of names below 65536 |
| P9Messages.Guest.StoreNames | boot/kernel/p9.c:111-117 | the loop over the tail writes the names, counted and in order |
| P9Messages.Guest.BuildCreate | boot/kernel/p9.c:122-150 | the stores at this builder's own offsets, with its own total, leave exactly the encoded request at the front of the buffer; permission and mode behind the name |
| P9Messages.Guest.BuildWrite | boot/kernel/p9.c:152-170 | the stores at this builder's own offsets, with its own total, leave exactly the encoded request at the front of the buffer; the data behind its four-byte count |
| P9Messages.Guest.BuildRead | boot/kernel/p9.c:172-189 | the stores at this builder's own offsets, with its own total, leave exactly the encoded request at the front of the buffer |
| P9Messages.Guest.BuildOpen | boot/kernel/p9.c:191-206 | the stores at this builder's own offsets, with its own total, leave exactly the encoded request at the front of the buffer |
| P9Messages.Guest.BuildClunk | boot/kernel/p9.c:208-221 | the stores at this builder's own offsets, with its own total, leave exactly the encoded request at the front of the buffer |
| P9Messages.Guest.BuildRemove | boot/kernel/p9.c:223-236 | the stores at this builder's own offsets, with its own total, leave exactly the encoded request at the front of the buffer |
| P9Messages.ParseVersion | devices/p9fs/trequests.cpp:80-86 | the constructor's reads, in its order, yield the request whose encoding they consume, or throw where the parse fails |
| P9Messages.ParseAuth | devices/p9fs/trequests.cpp:107-114 | this constructor's own sequence of reads yields exactly the request whose encoding it consumes, or fails where the parse fails |
| P9Messages.ParseAttach | devices/p9fs/trequests.cpp:148-156 | this constructor's own sequence of reads yields exactly the request whose encoding it consumes, or fails where the parse fails |
| P9Messages.ParseWalk | devices/p9fs/trequests.cpp:190-204 | this constructor's own sequence of reads yields exactly the request whose encoding it consumes, or fails where the parse fails; with the loop over the announced names |
| P9Messages.ParseOpen | devices/p9fs/trequests.cpp:271-276 | this constructor's own sequence of reads yields exactly the request whose encoding it consumes, or fails where the parse fails |
| P9Messages.ParseCreate | devices/p9fs/trequests.cpp:309-316 | this constructor's own sequence of reads yields exactly the request whose encoding it consumes, or fails where the parse fails |
| P9Messages.ParseRead | devices/p9fs/trequests.cpp:369-375 | this constructor's own sequence of reads yields exactly the request whose encoding it consumes, or fails where the parse fails |
| P9Messages.ParseWrite | devices/p9fs/trequests.cpp:419-428 | this constructor's own sequence of reads yields exactly the request whose encoding it consumes, or fails where the parse fails |
| P9Messages.ParseWstat | devices/p9fs/trequests.cpp:559-569 | this constructor's own sequence of reads yields exactly the request whose encoding it consumes, or fails where the parse fails |
| P9Messages.ParseFid | devices/p9fs/trequests.cpp:463-504 | this constructor's own sequence of reads yields exactly the request whose encoding it consumes, or fails where the parse fails; for the requests that carry one number |
| P9Messages.ToRequest | devices/ooows-p9fs.cpp:79-135 | the type selects the constructor; a type no request has yields none |
| P9Paths.CheckCharacters | devices/p9fs/trequests.cpp:25-40 | accepts a name if and only if every character is in the alphabet |
| P9Paths.RealpathCanonical | devices/p9fs/qidobject.cpp:165-187 | resolving a resolved path changes nothing |
| P9Paths.NextStaysWithin | devices/p9fs/qidobject.cpp:189-214 | one step by a slash-free name from a canonical object below a canonical root stays below it |
| P9Paths.WalkStaysWithin | devices/p9fs/trequests.cpp:206-254 | so does every walk over legal names |
| P9Paths.UncanonicalRootEscapes | devices/p9fs/qidobject.cpp:189-214 | if the root is not canonical, the walk ".", ".." leaves the share |
| P9Paths.ContainmentIffCanonicalRoot | devices/p9fs/p9core.cpp:42-45 | all legal walks from the root stay inside if and only if the configured root is canonical |
| P9Paths.WithinAsPrefix | devices/p9fs/qidobject.cpp:165-214 | inside means: the path is the root, or the root followed by a slash and more |
| P9Paths.WalkDescends | devices/p9fs/qidobject.cpp:189-214 | proper names lead from a path to that path followed by them |
| P9Paths.WalkReturns | devices/p9fs/qidobject.cpp:189-214 | from any object of the share ".." undoes a proper name and "." does nothing |
| P9Server.P9Core.GetFid | devices/p9fs/p9core.cpp:35-40 | as long as ownership holds, the object found is live, counts its fids, and no queued response is going to delete it |
| P9Server.P9Core.BindFid | devices/p9fs/p9core.cpp:18-25 | binds and counts, unless the fid is taken, in which case nothing changes |
| P9Server.P9Core.RemoveFid | devices/p9fs/p9core.cpp:27-33 | unbinds, and deletes the object if this was its last fid |
| P9Server.P9Core.Traverse | devices/p9fs/trequests.cpp:215-240 | creates one object per name until a name does not resolve |
| P9Server.P9Core.ExecuteWalk | devices/p9fs/trequests.cpp:206-254 | the whole walk, with every error path, as the value-level step; which object it binds, P9Effects.WalkMeaning states |
| P9Server.P9Core.ExecuteAttach | devices/p9fs/trequests.cpp:158-184 | attach, with every error path; it throws, with nothing changed, if and only if it gets as far as a share directory that cannot be examined |
| P9Server.P9Core.ExecuteCreate | devices/p9fs/trequests.cpp:318-359 | create, with every error path |
| P9Server.P9Core.ExecuteOpen | devices/p9fs/trequests.cpp:278-299 | open, with every error path |
| P9Server.P9Core.ExecuteRemove | devices/p9fs/trequests.cpp:506-528 | remove, with every error path |
| P9Server.P9Core.ExecuteClunk | devices/p9fs/trequests.cpp:469-494 | clunk always frees the fid |
| P9Server.P9Core.DestroyResponse | devices/p9fs/rresponses.cpp:98-118 | deletes exactly the intermediate objects of the oldest walk response |
| P9Server.StepKeepsOwnership | devices/p9fs/qidobject.hpp:69-77 | for every root, one request keeps ownership if and only if it is not a zero-name walk of an object's last fid onto itself |
| P9Server.CloneLeavesDangling | devices/p9fs/trequests.cpp:241-254 | that walk leaves the fid bound to a deleted object |
| P9Server.CloneReachable | devices/p9fs/trequests.cpp:158-254 | a client reaches that walk with its second request, with any fid |
| P9Server.RespondKeeps | devices/p9fs/rresponses.cpp:98-118 | a walk response's destructor deletes live objects and none that a fid holds |
| P9Server.FidTableOwnership | devices/p9fs/p9core.cpp:18-40 | over every run and for every root, each bound object is live, counts exactly its fids and is in no queued response |
| P9Server.ResponsesUnseen | devices/ooows-p9fs.cpp:63-75 | destroying walk responses in the other thread, at any moments, changes no outcome of a request and no entry of the table |
| P9Server.StepKeepsContainment | devices/p9fs/qidobject.cpp:165-214 | on a canonical root no request, not even that walk, brings in an object outside the root |
| P9Server.ServerStaysWithin | devices/p9fs/trequests.cpp:206-359 | over every run on a canonical root, every object is the root or below it, as a path prefix |
| P9Server.ServerContainmentIff | devices/p9fs/p9core.cpp:42-45 | over all runs the server's objects stay inside if and only if the configured root is canonical |
| P9Server.FailureKeepsTable | devices/p9fs/trequests.cpp:158-359 | a failed request leaves the fid table as it was, except clunk |
| P9Effects.WalkSucceedsIff | devices/p9fs/trequests.cpp:206-254 | a walk succeeds if and only if its names are legal and all found, its fid is bound to a directory, and the new fid is free or the old one |
| P9Effects.WalkMeaning | devices/p9fs/trequests.cpp:215-254 | the new fid then stands for where the names lead, of the kind found there; every other fid stands for what it did; the response will delete exactly the other objects created |
| P9Effects.WalkRefused | devices/p9fs/trequests.cpp:206-254 | a refused walk changes what no fid stands for, and leaves over exactly the objects it made |
| P9Effects.AttachMeaning | devices/p9fs/trequests.cpp:158-184 | succeeds if and only if no authentication fid is given, the share is named and the fid is free, which then stands for the root; else no object changes |
| P9Effects.CreateMeaning | devices/p9fs/trequests.cpp:318-359 | succeeds if and only if the name is legal, the fid is bound to a directory and the child is made and opens; the fid then stands for the child, open; every other fid stands for what it did |
| P9Effects.OpenMeaning | devices/p9fs/trequests.cpp:278-299 | succeeds if and only if the fid stands for a file not open and mode and host allow it; opens it for every fid that shares it |
| P9Effects.ClunkMeaning | devices/p9fs/trequests.cpp:469-494 | frees the fid in any case, reports whether the object was open, closes it for those that share it, deletes it if and only if none does |
| P9Effects.RemoveMeaning | devices/p9fs/trequests.cpp:506-528 | closes the object; frees the fid if and only if the host unlinks the file |
| P9Pipeline.ThreadedQueue.Put | devices/broadcooom/myqueue.hpp:28-36 | keeps the law that everything put was taken, in order, or is still queued |
| P9Pipeline.ThreadedQueue.Get | devices/broadcooom/myqueue.hpp:38-46 | the k-th item taken is the k-th item put |
| P9Pipeline.StepKeepsOrder | devices/ooows-p9fs.cpp:52-75 | no action of any thread loses, duplicates or reorders a request, response or buffer |
| P9Pipeline.PipelineIsSequential | devices/ooows-p9fs.cpp:137-219 | in every interleaving the i-th completed buffer is the i-th posted one and carries the i-th response of a sequential server; when nothing can move, all that can be completed is |
| P9Pipeline.P9FsDev.GotTMesg | devices/ooows-p9fs.cpp:196-219 | draining the message queue queues exactly the requests among the messages, in order, and keeps the pipeline in order |
| P9Pipeline.P9FsDev.GotRMesg | devices/ooows-p9fs.cpp:196-219 | draining the buffer queue hands on every buffer, in order |
| P9Pipeline.P9FsDev.RequestRound | devices/ooows-p9fs.cpp:52-61 | one round processes the oldest request not yet taken and queues its answer, if any |
| P9Pipeline.P9FsDev.ResponseRound | devices/ooows-p9fs.cpp:63-75 | one round pairs the oldest response with the oldest buffer |
| P9EndToEnd.EndToEnd | devices/ooows-p9fs.cpp:52-219 | for encoded requests, in every interleaving, deletions by the response thread included: the i-th completed buffer is the i-th posted and carries the i-th reply, with its tag and outcome, and the bound objects are those of a run of the requests served, so ownership holds |
| P9EndToEnd.CompleteShadows | devices/ooows-p9fs.cpp:63-75 | deleting a response finds the objects of its walk queued, and changes nothing that a fid holds |
| P9EndToEnd.ParsedFits | devices/ooows-p9fs.cpp:137-194 | whatever bytes arrive, a request that parses is one the fid table can execute |
| P9Client.AttachServed | devices/p9fs/trequests.cpp:148-184 | the bytes of an attach request give its tag and outcome, and bind the fid to the root |
| P9Client.WalkServed | devices/p9fs/trequests.cpp:190-254 | the bytes of a walk request give its tag and outcome; the new fid stands for where the names lead from the old one |
| P9Client.CreateServed | devices/p9fs/trequests.cpp:309-359 | the bytes of a create request give its tag and outcome; the fid stands for the named child, open |
| P9Client.OpenServed | devices/p9fs/trequests.cpp:271-299 | the bytes of an open request give its tag and outcome, and open the object |
| P9Client.ClunkServed | devices/p9fs/trequests.cpp:463-494 | the bytes of a clunk request free the fid and report whether its object was open |
| P9Client.RemoveServed | devices/p9fs/trequests.cpp:500-528 | the bytes of a remove request close the object and free the fid if the host unlinks the file |
| Vcpus.StartVcpus | vmm.c:524-530 | the creation loop leaves exactly the first vCPU running, all distinct, no interrupt in service |
| Vcpus.DoSipi | apic.c:62-89 | afterwards the addressed vCPU runs, if it exists, from the vector's address unless it was running, which changes nothing; all others keep their state |
| Vcpus.ScanStates | vmm.c:330-343 | undisturbed, the scan reports a shutdown if and only if no vCPU is running |
| VcpuSleep.StepKeepsInv | vmm.c:330-362 | in every step some vCPU stays marked running or some thread stays alert |
| VcpuSleep.SipiMarks | apic.c:62-89 | a start-up request, checked and then carried out, marks the addressed vCPU running whatever it was, and no other |
| VcpuSleep.NoGlobalSleep | vmm.c:330-378 | for any number of vCPUs and any interleaving, never are all threads asleep with no vCPU marked running; some thread has exited or can move |
| VcpuSleep.ScanExactIff | vmm.c:335-343 | a step makes a pending scan verdict wrong if and only if it wakes a vCPU that the scan has passed |
| VcpuSleep.ShutdownSound | vmm.c:335-343 | in a run with no such step, a thread shuts down after a scan only when no vCPU is running |
| VcpuSleep.VerdictWrongIff | vmm.c:335-343 | in every run, the verdict that all are halted is wrong if and only if some vCPU was woken behind the scan and has not halted since |
| VcpuSleep.ShutdownOvertaken | vmm.c:335-343 | a reachable state in which a thread shuts down although another vCPU is running |
| Interrupts.Ioapic.QueueInterrupt | apic.c:366-400 | appends to the linked list unless 256 are queued or memory is short; the counter stays the list's length |
| Interrupts.Ioapic.DequeueInterrupt | apic.c:402-424 | removes the oldest, or returns null exactly when the list is empty |
| Interrupts.Ioapic.HaveInterrupts | apic.c:426-431 | the counter is non-zero exactly when an interrupt is queued |
| Interrupts.BitAfterSet | apic.c:335-336 | setting an in-service bit changes no other |
| Interrupts.BitAfterClear | apic.c:104-109 | an EOI clears its bit and no other |
| Interrupts.Hypervisor.SendInterrupt | apic.c:258-346 | the whole of ioApicSendInterrupt as the value-level step; whom it wakes, DeliverWakes states, and when it injects, DroppedIff |
| Interrupts.Hypervisor.CheckAndSendInterrupt | apic.c:434-462 | sends the oldest interrupt if the vCPU is ready, else asks for a window, else closes it |
| Interrupts.Hypervisor.LapicMmioWrite | apic.c:91-115 | EOI clears one bit of the writer, IPI wakes its target, other offsets change nothing |
| Interrupts.StepKeepsInv | apic.c:258-462 | every step keeps the queue's history, the account of what was dequeued, and the meaning of the in-service registers |
| Interrupts.EndedBetween | apic.c:303-336 | what was injected and is not in service any more has been ended in between |
| Interrupts.InterruptDelivery | apic.c:258-462 | over every run at most 256 are queued, accepted interrupts leave once in FIFO order, each that left is in a thread's hand, was injected (the injections, in order, are of just these) or was dropped, and two injections of an irq into a vCPU have an EOI between them |
| Interrupts.DroppedIff | apic.c:265-336 | after every run, what a thread holds will be dropped if and only if the target is missing or never started, or an injection of the line into it has not been ended, or KVM refuses; otherwise it will be injected with the programmed vector |
| Interrupts.ProgrammedEntry | apic.c:265-326 | an injection goes to the vCPU in the upper half of the programmed entry with the vector in its lower half |
| Interrupts.DeliverWakes | apic.c:285-313 | sending marks a halted target running, whether the interrupt is injected, refused or still in service; every other mark stays |
| Interrupts.DeliverWakesThread | apic.c:285-299 | delivery acts on the marks as the model of the vCPU threads says, and the thread of a halted target can resume |
| Interrupts.SecondRaiseLost | apic.c:305-313 | any irq whose target has been started, raised twice before the EOI, is injected once and lost once, with nothing queued or held |
| HeapBlocks.MergeFailsIff | boot/kernel/malloc.c:105-115 | merge reads through a null pointer if and only if the list ends with an even, non-zero number of free blocks |
| HeapBlocks.LiveSeparate | boot/kernel/malloc.c:68-76 | regions of blocks in use lie inside the heap and do not touch |
| HeapBlocks.MergeKeeps | boot/kernel/malloc.c:105-115 | merge moves no block in use and loses no byte |
| HeapBlocks.MergeByRuns | boot/kernel/malloc.c:105-115 | run by run: free neighbours are joined two by two from the front, a last one alone stays, blocks in use stay |
| HeapBlocks.StopFits | boot/kernel/malloc.c:85-88 | the search stops at the first free block that is large enough, or at the last block |
| HeapBlocks.MallocSoundIff | boot/kernel/malloc.c:79-103 | the result is NULL or a new region inside the heap, clear of all live ones, if and only if the search does not end in a misfit |
| HeapBlocks.FirstFitTaken | boot/kernel/malloc.c:79-103 | the first free block that is large enough is taken, whole if it has the size, split if more than a header is spare, and else malloc fails |
| HeapBlocks.NothingFits | boot/kernel/malloc.c:79-103 | with no such block, or an empty first one, malloc fails and changes nothing, unless the search ends in a misfit |
| HeapBlocks.AllocKeeps | boot/kernel/malloc.c:68-103 | a sound malloc adds exactly one region of the requested length and keeps the heap filled |
| HeapBlocks.FreedKeeps | boot/kernel/malloc.c:117-124 | marking a block free removes exactly its region |
| HeapRuns.HeapTiling | boot/kernel/malloc.c:59-124 | after every run the blocks tile the heap, the used blocks are what callers hold, with the lengths they asked for, pairwise apart |
| HeapRuns.SafeIff | boot/kernel/malloc.c:79-124 | the steps excluded from runs are exactly those that break soundness or read through null |
| HeapRuns.TailTakenTwice | boot/kernel/malloc.c:89-93 | a full heap returns the same pointer twice |
| HeapRuns.FirstFreeFails | boot/kernel/malloc.c:105-124 | freeing the first block of a fresh heap reads through a null pointer |
| HeapRuns.CarefulRunsAreSafe | boot/kernel/malloc.c:59-124 | callers who never take the last block whole, never free the one before it and never ask for more than the heap meet neither failure, and the last block stays free |
| Heap.Allocator.constructor | boot/kernel/malloc.c:59-66 | one free block fills the heap |
| Heap.Allocator.Split | boot/kernel/malloc.c:68-76 | in 32-bit arithmetic, the block's header gets its new size and link whatever the size; the second header takes over the rest and the old link unless the two overlap; no other header changes |
| Heap.Allocator.Search | boot/kernel/malloc.c:85-88 | following next pointers reaches the block where the search stops |
| Heap.Allocator.Malloc | boot/kernel/malloc.c:79-103 | returns the specified pointer always, and leaves the specified list, after a misfit too; if the size wraps around, the last block's header claims n bytes and links into itself, and for the size that links it to itself nothing else changes |
| Heap.Allocator.Merge | boot/kernel/malloc.c:105-115 | terminates, and either re-links the list as specified or fails exactly when specified |
| Heap.Allocator.Free | boot/kernel/malloc.c:117-124 | opens the block behind the pointer and merges; pointers outside the heap are ignored |
| WorkQueue.Queue.QueueWork | devices/utils/threadpool.c:27-56 | appends, keeping both chains and the length in step |
| WorkQueue.Queue.DequeueWorkUnlocked | devices/utils/threadpool.c:8-25 | removes the oldest item and unlinks it on both sides |
| WorkQueue.Queue.TakeWork | devices/utils/threadpool.c:58-76 | a worker takes the oldest item if there is one; items leave in insertion order, once each |
| WorkQueue.Queue.ChainsAgree | devices/utils/threadpool.c:8-56 | the forward chain, the reversed backward chain and the length describe the same list |

## Left out

- Microengine.Engine.InterpretAlu: ALU operation 15 leaves its result uninitialised in the source and is 0 here; shift amounts of 32 and more are undefined in C and are reduced modulo 32 here, as x86 does; DBL_SHF does nothing in the source or here.
- Microengine.Engine.InterpretImmediate: a comment in devices/broadcooom/types.hpp announces sign extension of IMMED; the code does not extend, and the model follows the code.
- Microengine.Engine.InterpretBranch: the branch opcodes the source leaves unimplemented never branch.
- Microengine.Engine.HandleMemory: requires the transfer to stay inside the register file and the memory; outside them the source's behaviour is undefined.
- SyncRefinement.AsyncRefinesSync: FIFO instructions and transfer counts taken from the last ALU result are excluded, and so are host writes to words that an outstanding transfer covers.
- MicroMachine.WakeUpInvariant: FIFO payloads and the MQTT physical layer are not modelled; a FIFO job either completes or is dropped.
- Assembler.Assemble: parsing of the source text, and targets given as numbers, which the source drops from the output; instructions are fetched only below the number of instructions.
- VirtioMmio.MmioVirtioDev.MmioWrite: register reads, contents of the configuration space, and what a device does when a queue is notified.
- VirtioRing.Virtq.PutBuffer: what the element overwrites behind the used area; the two rings and the table are taken to lie elsewhere.
- VirtioRing.DividingIsFifo: runs begin with both indices at zero; VirtioRing.Virtq.Setup says that the driver does not see to it. Callers of add_buf are taken to post in-range buffers, at most one queue size of them not yet taken; add_buf itself does not check.
- VirtioSteps.EveryInterleaving: the same of the callers of add_buf; stores become visible in program order, a 64-bit address is one store, and get_buf and put_buf of one queue have one caller each.
- VirtioRing.Virtq.Setup: the allocations of the queue, the table and the two rings, whose failure the driver does not check; they are taken to succeed.
- P9Wire.Reader.ReadCountedBytes: yields the counted bytes; that strings are cut at an embedded NUL later is not modelled.
- P9Wire.MessageRoundTrip: a size beyond the end of the packet, for which the source copies past the guest buffer, has no result.
- P9Server.FidTableOwnership: attaching to a share directory that can no longer be examined, which ends the server; stat, read and write data, authentication, qid hashing and version negotiation; the host file system is a symlink-free tree whose answers are inputs of each request; a walk response carries copies of its qids.
- P9Server.StepKeepsOwnership: a reference count of 2^32 fids on one object wraps in the model as in the source.
- P9Pipeline.PipelineIsSequential: every response is taken to fit its buffer.
- P9EndToEnd.EndToEnd: requests that do not touch the fid table have an outcome given by the host; the contents of replies beyond tag and outcome are not modelled.
- Vcpus.ScanStates: states what the loop computes when no state changes under it; interleaved scans are the subject of VcpuSleep.
- VcpuSleep.NoGlobalSleep: condition-variable signals are modelled by their effect, a sleeping thread may resume once its vCPU is marked running.
- Interrupts.Hypervisor.SendInterrupt: whether KVM accepts an interrupt is an input; the vector is passed on unchecked, as in the source.
- Heap.Allocator.Malloc: for a size that wraps around, the second header overlaps the first unless they coincide; what is left of it is not stated.
- Heap.Allocator.Split: likewise, what an overlapped second header holds is not stated.
- Heap.Allocator.Free: pointers inside the heap that were not returned by malloc are a caller's error and excluded.
- Device process spawning, sockets, device bus routing, VGA, serial, disk, web front ends, BIOS and boot code, hyper-o and ogx: foreign interfaces, or code whose behaviour is its input and output.
