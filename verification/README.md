# red-o-lator in Dafny

red-o-lator runs OpenCL 1.2 kernels without a GPU. It is a driver (queues, commands, events and
buffers with counted references), an emulator of GCN wavefronts, and a debugger that talks to the
emulator over two channels. This project models the parts whose correctness is not visible in one
function body and proves what they promise.

**Driver.** `DrainOrder` is the order hidden in a flush: a deque drained from one end, where executing a
command first executes what it waits for and commands that have run are skipped. `DriverHeap`,
`DriverInvariant`, `DriverSteps` and `DriverAlloc` hold the objects, the invariant and one lemma for
each step, and `DriverWait` is execution outside a flush. `Driver` is the imperative code: the recursive
execution, the flush that deletes commands and so re-enters itself, retain and release. Its `decreases`
clauses are the termination argument: first the number of queues not being flushed, then the kind of
call, then the number of the command.
`BufferCommands` and `BufferTheorems` are what commands do to memory. `DriverTheorems` says what the
invariant means; `DriverClient` runs arbitrary clients.

**SIMT execution.** `LaneMask` and `WavefrontState` give the registers and the meaning of an instruction;
`Wavefront` has the object with its register arrays and loops; `KernelCode` and `WavefrontControl` the
parser and the fetch-execute loop; `Divergence` and `DivergenceCode` the theorem that running all lanes
in lockstep under EXEC masks is ordinary branching in every lane; `UniformBranch` is branching on SCC, VCC,
EXEC and the debug bits.

**Debugging.** `Channel` is the one-slot monitor as atomic turns of any number of threads, with sleeping
and woken threads, spurious wake-ups and an arbitrary choice of the thread woken. `Breakpoints`,
`DebugSession`, `DebugTheorems` and `DebuggerLink` are the breakpoint sets, the mode machine, its
protocol over whole sessions, and the agreement of the two breakpoint sets.

**Launch, arithmetic and memory.** `NDRange`, `Dispatcher`, `WorkGroup`, `LaneCoverage`; `BitCount`,
`BitReverse`, `LaneRank`, `CarryChain`; `Storage`, `ScalarLoad`, `Arguments`. `LaneCoverage` puts the
launch together: dispatched groups, their wavefronts, and what EXEC and the first registers hold.

Three conventions. An object of the driver is a cell of an arena and a pointer an index; deleting clears
the cell's `live` flag, and a method may use a pointer only where the cell is live. `hist` and `trace`
fields are ghost: they record references held by the environment, and what has happened. The clock, the
choice of the thread a notification wakes, spurious wake-ups and whether a message has already arrived
are arbitrary.

Where the code departs from what it seems to intend, the model follows the code and proves the
exact condition: `init_wavefronts` never advances the wavefront number
(`LaneCoverage.EachPointOnceIff`), `next_wg` past the end gives nothing only if the z size divides the
range (`Dispatchers.Dispatcher.NextWg`), the number of groups is a 64-bit product
(`Dispatchers.Dispatcher.DispatchAll`), the range check of read and write can wrap
(`DriverClient.RangeCheckIsExact`), `clWaitForEvents` can delete the command it is executing
(`Driver.Runtime.WaitForEvents`, `DriverClient.WaitDeletesItsCommand`), a pointer argument without read
permission gets no space of its own (`Arguments.AreasApartIff`), and a breakpoint changed in a
terminal mode never arrives (`DebuggerLink.ConvergesIffNotTerminal`). `tryRead` gives nothing once the
channel is closed; a value left there is for `read` (`Channels.ClosedValueIsLeftToRead`).

`dafny verify dfyconfig.toml` checks the whole project.

## Model

| member | source | states |
|---|---|---|
| `DrainOrder.DrainIsTopological` | driver/src/runtime/icd/CLCommandQueue.cpp:30-43 | For any wait lists that name only earlier commands and any deque, draining from the back (or front) with recursive execution and skipping runs each command of the deque that has not run exactly once, nothing else, and each one after everything it waits for (OpenCL 1.2 section 5.11) |
| `DrainOrder.InOrderDrain` | driver/src/runtime/icd/CLCommandQueue.cpp:36-39 | Without wait lists an in-order queue runs what is left of its deque in the order of the calls |
| `DrainOrder.OutOfOrderDrain` | driver/src/runtime/icd/CLCommandQueue.cpp:33-35 | Without wait lists an out-of-order queue runs what is left of its deque from the end |
| `DrainOrder.WaitListIsStack` | driver/src/runtime/command/Command.cpp:29-33 | A wait list is a stack: of the commands waited for that wait for nothing themselves the one added last is executed first, and the command that waits after all of them |
| `DrainOrder.VisitAllSkips` | driver/src/runtime/command/Command.cpp:24-27 | Leaving out of a wait list what has run already changes nothing about the order |
| `BufferCommands.FillLoop` | driver/src/runtime/command/BufferFillCommand.cpp:30-35 | The loop of memcpy writes whole copies of the pattern and leaves the rest of the area, including a last partial pattern, as it was |
| `BufferCommands.ExecuteImpl` | driver/src/runtime/command/BufferCopyCommand.cpp:29-32 | Each of the four commands moves its bytes, and no others: the memory after it is Apply, and, byte by byte, Moves |
| `BufferCommands.ApplyMoves` | driver/src/runtime/command/BufferReadCommand.cpp:26-28 | Byte i of the area read, written or copied to is byte i of the area it comes from, a fill writes whole copies of the pattern, and every other byte of buffers and host memory stays (OpenCL 1.2 section 5.2) |
| `BufferTheorems.BufferStays` | driver/src/runtime/command/Command.cpp:47-52 | Bytes of a buffer no command of a list writes over are as they were after the whole list |
| `BufferTheorems.HostStays` | driver/src/runtime/command/Command.cpp:47-52 | So are bytes of host memory |
| `BufferTheorems.ReadGivesWritten` | driver/src/runtime/command/BufferReadCommand.cpp:26-28 | A write, anything that spares its range, a read of that range, anything that spares the area read to: host memory ends with the bytes that were written |
| `BufferCommands.ApplyAllConcat` | driver/src/runtime/command/Command.cpp:47-52 | Running two lists of in-range operations one after the other is running their concatenation |
| `DriverHeap.RetainBalanced` | driver/src/runtime/runtime-memory.cpp:8-18 | A retain keeps every counter equal to the handles plus the references held by live objects |
| `DriverHeap.DropBalanced` | driver/src/runtime/runtime-memory.cpp:20-36 | A release, with the deletion it may cause, keeps every counter exact and every object alive as long as its counter is positive; the references of a deleted object become due |
| `DriverHeap.CommandTargetsLive` | driver/src/runtime/command/Command.cpp:7-19 | Whatever a live command refers to (queue, event, buffers, events it waits for) is live |
| `Driver.Runtime.constructor` | driver/src/runtime/common/runtime-commons.cpp:3-12 | A driver with no objects satisfies the invariant |
| `Driver.Runtime.Retain` | driver/src/runtime/runtime-command-queue.cpp:56-58 | One more on exactly one counter; one more reference held by the caller |
| `Driver.Runtime.ReleaseContext` | driver/src/runtime/icd/CLMem.cpp:8-16 | A context reference given back changes only contexts and keeps the invariant |
| `Driver.Runtime.ReleaseMemObject` | driver/src/runtime/runtime-memory.cpp:20-36 | The counter goes down; at zero the buffer dies, its size leaves the used global memory and its context reference goes back |
| `Driver.Runtime.ReleaseBuffers` | driver/src/runtime/command/BufferCopyCommand.cpp:20-23 | The destructors of the four buffer commands give back exactly the buffer references their constructors took, twice for a copy inside one buffer |
| `Driver.Runtime.ReleaseCommandQueue` | driver/src/runtime/runtime-command-queue.cpp:61-78 | The queue is flushed first, unless a flush of it is already running; then one reference is gone, and the queue with the last one |
| `Driver.Runtime.ReleaseEvent` | driver/src/runtime/runtime-event.cpp:57-71 | One reference is gone; the last one releases context and queue, which flushes the queue unless it is being flushed |
| `Driver.Runtime.DeleteCommand` | driver/src/runtime/command/Command.cpp:11-19 | Deleting a finished command inside a flush gives back its buffers, its event and its queue, and changes nothing else that a flush depends on; the re-entered release of the queue does not flush again |
| `Driver.Runtime.Run` | driver/src/runtime/command/Command.cpp:47-53 | A command whose wait list has run becomes submitted, running and complete at ascending clock readings and has its effect on memory once |
| `Driver.Runtime.RunWaitEvent` | driver/src/runtime/command/Command.cpp:30-44 | One turn of the loop over the wait list: the topmost event is taken off, its command run if it is still queued, the reference given back; inside a flush this always goes through, outside it is lost where the reference given back is the last one |
| `Driver.Runtime.RunWaitList` | driver/src/runtime/command/Command.cpp:29-45 | The loop empties the wait list and runs whatever it still needs, or is lost where one of its turns is |
| `Driver.Runtime.Execute` | driver/src/runtime/command/Command.cpp:21-53 | Called in a flush or not: terminates, runs the command and what it waits for as the depth-first order says, skips a command that has run, and touches only commands of its queue with smaller numbers; it can be lost outside a flush only |
| `Driver.Runtime.Flush` | driver/src/runtime/icd/CLCommandQueue.cpp:22-51 | Terminates although deletions re-enter it; a nested call does nothing; an outer call runs what has not run of the deque, deletes exactly its commands and leaves the queue idle and empty |
| `Driver.Runtime.CreateContext` | driver/src/runtime/runtime-context.cpp:9-59 | A new context has one reference, held by the caller |
| `Driver.Runtime.CreateCommandQueue` | driver/src/runtime/runtime-command-queue.cpp:7-28 | A new queue has one reference, held by the caller, holds one to its context, is empty, and is out of order exactly if asked to be |
| `Driver.Runtime.CreateBuffer` | driver/src/runtime/runtime-memory-buffer.cpp:12-131 | Succeeds exactly for a non-zero size, a host pointer exactly when one is to be copied, and enough device memory left, with the error of the first of these that fails; each byte of the buffer is the one at the host pointer or zero, other memory stays, and the size is accounted for; on an error nothing changes |
| `Driver.Runtime.RetainHandle` | driver/src/runtime/runtime-event.cpp:45-55 | clRetain*: one more handle, nothing else |
| `Driver.Runtime.ReleaseHandle` | driver/src/runtime/runtime-event.cpp:57-71 | clRelease*: one handle less; releasing a queue, or an event for the last time, flushes the queue, and nothing else runs anything |
| `Driver.Runtime.Finish` | driver/src/runtime/runtime-command-queue.cpp:30-46 | clFinish, and clFlush which calls it, flush the queue completely (OpenCL 1.2 section 5.13) |
| `Driver.Runtime.WaitForEvents` | driver/src/runtime/runtime-event.cpp:73-100 | clWaitForEvents runs the commands of the events and what they wait for, each at most once, leaving the deques to skip them later; it deletes a command it is executing if and only if some event that a command still to run waits for is referred to from nowhere else (no handle, no live command of its own, no wait list of another command) |
| `Driver.Runtime.WaitForEvent` | driver/src/runtime/runtime-event.cpp:90-97 | One turn of that loop |
| `Driver.Runtime.LoseCommand` | driver/src/runtime/icd/CLEvent.cpp:19-30 | What the code does in the failing case: giving back the last reference deletes the event, whose destructor flushes the queue, which runs and deletes the command that goes on executing |
| `DriverWait.LostIsUnkept` | driver/src/runtime/command/Command.cpp:30-44 | Where the reference taken off a wait list is the last one, nothing else referred to the event when the call began |
| `DriverWait.FinishedIsKept` | driver/src/runtime/command/Command.cpp:30-44 | Where a wait has gone through, every event its commands waited for was referred to from elsewhere too |
| `DriverWait.InOrderWaitIsKept` | driver/src/runtime/command/Command.cpp:29-45 | Waiting for events of in-order queues always goes through |
| `DriverWait.HandlesAreKept` | driver/src/runtime/runtime-event.cpp:45-55 | So does waiting by a client that keeps a handle to every event it lets a command wait for |
| `Driver.Runtime.AddEventsToWaitList` | driver/src/runtime/command/Command.cpp:65-72 | One reference to each event of the list, repeated events repeated |
| `Driver.Runtime.RetainBuffers` | driver/src/runtime/command/BufferCopyCommand.cpp:16-17 | The constructors of the four buffer commands retain exactly the buffers they use |
| `Driver.Runtime.EnqueueCommand` | driver/src/runtime/common/runtime-commons.cpp:65-82 | The new command, with its operation and whole wait list, is last in the deque, linked to its event, which is queued now, with every reference counted; nothing runs and no other object changes |
| `DriverTheorems.FlushRunsDequeOnce` | driver/src/runtime/icd/CLCommandQueue.cpp:22-51 | After any flush the commands of the deque have run exactly once and are deleted, those that had not run before having run now, no other command, none before what it waits for, and memory is what their operations give in that order |
| `DriverTheorems.FlushOrder` | driver/src/runtime/icd/CLCommandQueue.cpp:30-43 | The order of a flush, alone: an in-order queue runs its deque from the front; an out-of-order queue without wait lists from the back |
| `DriverTheorems.FlushMemory` | driver/src/runtime/command/Command.cpp:47-52 | The effect of a flush on memory, alone |
| `DriverTheorems.ProfilingTimes` | driver/src/runtime/icd/CLEvent.cpp:48-88 | Queued, submitted, start and end times of every finished command ascend, and everything it waited for ended before it was submitted (OpenCL 1.2 section 5.12) |
| `DriverTheorems.EventCounter` | driver/src/runtime/command/Command.cpp:60-72 | An event's counter is the handles to it, plus one if its command is live, plus its occurrences in wait lists |
| `DriverTheorems.QueueCounter` | driver/src/runtime/icd/CLEvent.cpp:6-17 | A queue's counter is the handles to it plus its live commands plus its live events |
| `DriverTheorems.BufferCounter` | driver/src/runtime/runtime-memory.cpp:8-36 | A buffer's counter is the handles to it plus its uses by live commands |
| `DriverTheorems.NothingDangles` | driver/src/runtime/icd/CLCommandQueue.cpp:45-48 | What a handle, a live command or a live event points to is live; an event that has not run has a live command; used global memory is the total size of the live buffers and within the device |
| `DriverClient.Client.Serve` | driver/src/runtime/runtime-memory-buffer.cpp:163-279 | Any one call with handles the client holds keeps the driver invariant and the account of the handles and never takes a finished command back, or is a wait that deletes a command it is executing, exactly under the condition for that |
| `DriverClient.Client.Run` | driver/src/runtime/icd/CLCommandQueue.cpp:22-51 | Over any list of calls, waits included, no command runs twice, all counters stay exact and used memory stays within the device; the run ends early at the first wait that deletes a command it is executing, and at nothing else |
| `DriverClient.WaitDeletesItsCommand` | driver/src/runtime/runtime-event.cpp:90-92 | A run of eight calls, on any fresh driver, in which clWaitForEvents deletes the command it is executing |
| `DriverClient.RangeCheckIsExact` | driver/src/runtime/runtime-memory-buffer.cpp:152-160 | For every buffer, the range check of read and write accepts a range exactly if it is inside, if and only if offset + size does not wrap around 64 bits or what is left after wrapping still exceeds the buffer |
| `DriverClient.RangeCheckAcceptsWrapped` | driver/src/runtime/runtime-memory-buffer.cpp:152-160 | Offset 2^64 - 1 with size 2 is accepted for a buffer of four bytes |
| `DriverClient.CheckBufferParameters` | driver/src/runtime/runtime-memory-buffer.cpp:146-160 | The check itself, for any pointer, offset, size and buffer |
| `DriverClient.EnqueueTransfer` | driver/src/runtime/runtime-memory-buffer.cpp:163-225 | Read and write are enqueued last in their queue exactly when pointer and size are non-zero and the range is inside the buffer; a refused call is CL_INVALID_VALUE and changes nothing; a blocking call returns with the command complete and the queue empty, any other runs nothing |
| `DriverClient.RunInOrder` | driver/src/runtime/icd/CLCommandQueue.cpp:17-51 | An in-order queue, flushed at any points, leaves buffers and host memory as if each operation had been applied when it was enqueued, and runs each once in that order (OpenCL 1.2 sections 5.1 and 5.13) |
| `DriverClient.WriteThenRead` | driver/src/runtime/runtime-memory-buffer.cpp:163-225 | On an in-order queue a client that writes a range and later reads it finds in host memory what it wrote, with any commands between that spare the range, any commands after that spare the area read to, and flushes anywhere |
| `LaneMask.OneHotIsShift` | emulator/src/flow/wavefront.cpp:524-526 | The lane bit is 1 shifted by the lane number |
| `MachineWords.JoinValue` | emulator/src/commons/util.cpp:10-20 | Of two words joined the first is the upper half of the number |
| `LaneMask.SetLaneMasked` | emulator/src/alu/alu_vop2.cpp:9-13 | Setting or clearing a lane's VCC bit changes that bit and no other |
| `LaneMask.AndMasked` | emulator/src/alu/alu_sop1.cpp:11-15 | A lane is active after the and if it was active and its condition bit is set |
| `LaneMask.LowLanesMasked` | emulator/src/flow/wavefront.h:182-190 | EXEC of a wavefront of n items has exactly the lowest n bits set, for every n up to 64 |
| `WavefrontState.SpanOfSetSpan` | emulator/src/flow/wavefront.cpp:432-440 | Registers read back the words written to them, in the same order |
| `WavefrontState.U64OfWords` | emulator/src/flow/wavefront.cpp:475-485 | A 64-bit value split over a register pair is put together again |
| `WavefrontState.WordsOfU64` | emulator/src/commons/util.cpp:10-20 | One or two words put together are split into the same words |
| `WavefrontState.VectorLaneEffect` | emulator/src/flow/wavefront.cpp:338-343 | Writing back one lane changes that lane, if it is active, as the operation says, and no other |
| `WavefrontState.VectorIsPerLane` | emulator/src/alu/alu_vop2.cpp:197-249 | A vector instruction over all lanes does in each active lane what it does to that lane alone and nothing elsewhere, VCC bits of VOP2 included, although all lanes are read and written back |
| `Wavefronts.ToUint64` | emulator/src/commons/util.cpp:10-20 | The loop joins the first two words, the first on top |
| `Wavefronts.ProgramCounter.SetValue` | emulator/src/flow/register.h:17-20 | A jump sets the counter and marks it used |
| `Wavefronts.ProgramCounter.HiddenAdd` | emulator/src/flow/register.h:27-29 | An advance in 64 bits leaves the mark alone |
| `Wavefronts.ProgramCounter.WasUsed` | emulator/src/flow/register.h:35-39 | Asking for the mark also clears it |
| `Wavefronts.Wavefront.constructor` | emulator/src/flow/wavefront.cpp:101-116 | All registers start at zero and the counter at address 0 |
| `Wavefronts.Wavefront.ReadOperand` | emulator/src/flow/wavefront.cpp:408-464 | The words of every kind of operand, highest register first |
| `Wavefronts.Wavefront.ReadRegisters` | emulator/src/flow/wavefront.cpp:432-450 | The descending loop reads consecutive registers, highest first |
| `Wavefronts.Wavefront.WriteRegisters` | emulator/src/flow/wavefront.cpp:492-510 | The ascending loop stores the last word in the lowest register and changes no other register |
| `Wavefronts.Wavefront.WriteOperand` | emulator/src/flow/wavefront.cpp:475-522 | A 64-bit value goes to EXEC, VCC, or registers: the low word to the first, the high word to the second if there are two; any other operand and register is left alone |
| `Wavefronts.Wavefront.ReadValue` | emulator/src/flow/wavefront.cpp:408-464 | The number each kind of operand reads as: a constant, one register, the highest two of several with the higher one on top, EXEC, VCC, or SCC as 0 or 1 |
| `Wavefronts.MoveReadsBack` | emulator/src/alu/alu_sop1.cpp:214-216 | After s_mov_b64 the destination reads as the source did, after s_and_saveexec_b64 as EXEC did, and only the destination, EXEC and SCC have changed |
| `Wavefronts.Wavefront.SetVgpr` | emulator/src/flow/wavefront.cpp:127-131 | One register of one lane |
| `Wavefronts.Wavefront.GetVectorState` | emulator/src/flow/wavefront.cpp:259-336 | The operands of all lanes, read before any lane is written |
| `Wavefronts.Wavefront.UpdateWithVectorState` | emulator/src/flow/wavefront.cpp:310-343 | All lanes written back, VCC only for VOP2 |
| `Wavefronts.Wavefront.ComputeLanes` | emulator/src/alu/alu_vop3.cpp:439-509 | The loop over the lanes computes the active ones and keeps the old destination of the others |
| `Wavefronts.Wavefront.RunVector` | emulator/src/alu/alu_vop1.cpp:77-115 | Read, compute and write-back loops together are the per-lane meaning of the instruction |
| `Wavefronts.Wavefront.RunAndSaveexec` | emulator/src/alu/alu_sop1.cpp:11-15 | EXEC becomes source and EXEC, SCC is set exactly if that is not zero, and the old EXEC is saved, with EXEC written before the destination |
| `Wavefronts.Wavefront.RunMovB64` | emulator/src/alu/alu_sop1.cpp:214-216 | The 64-bit move, also to EXEC |
| `Wavefronts.Wavefront.RunInstr` | emulator/src/alu/alu_sopp.cpp:4-53 | Registers change as the instruction says; the program counter becomes the target exactly for a branch whose condition on EXEC, VCC, SCC or the two debug bits holds, each of the eleven spelled out |
| `Wavefronts.Wavefront.ToNextInstr` | emulator/src/flow/wavefront.cpp:122-125 | The counter moves by the width of the instruction unless a jump was taken |
| `Wavefronts.Wavefront.Turn` | emulator/src/gpu/compute_unit.cpp:16-41 | One turn of the fetch-execute loop is one step of the machine |
| `Wavefronts.Wavefront.RunWavefront` | emulator/src/gpu/compute_unit.cpp:14-42 | For kernels whose branches go forward the loop ends, where running the instructions one by one ends, within as many turns as there are instructions |
| `KernelCode.ParseKernelCode` | emulator/src/commons/parser.cpp:93-131 | Every address holds the last instruction given for it, as wide as the gap to the next instruction line, the last one 4 wide; an address has an entry exactly if an instruction names it, so labels are skipped |
| `KernelCode.GapLeadsOn` | emulator/src/commons/parser.cpp:117-124 | Adding the width to an address leads to the next instruction line, also backwards, in 64 bits |
| `WavefrontControl.EntryAt` | emulator/src/commons/parser.cpp:117-124 | In a well-formed kernel the width of each instruction leads to the next one |
| `WavefrontControl.StepStaysInside` | emulator/src/gpu/compute_unit.cpp:16-41 | After one turn the counter is again at an instruction with no jump pending; a turn fails only on an operand of its instruction |
| `WavefrontControl.ControlStaysInside` | emulator/src/gpu/compute_unit.cpp:14-42 | Over a run of any length the counter is at an instruction, with no jump pending, at every fetch, and the run completes only at s_endpgm |
| `WavefrontControl.ForwardRunEnds` | emulator/src/alu/alu_sopp.cpp:4-53 | With forward branches only, the run ends within the number of instructions |
| `Divergence.EnterFacts` | emulator/src/alu/alu_sop1.cpp:11-15 | s_and_saveexec leaves active exactly the lanes whose condition holds, keeps the old mask in the pair, sets SCC exactly if a bit of EXEC is left, and changes no lane and no other register |
| `Divergence.LeaveFacts` | emulator/src/alu/alu_sop1.cpp:214-216 | s_mov_b64 exec restores the saved mask exactly |
| `Divergence.LockstepIsPerLane` | emulator/src/alu/alu_vop2.cpp:197-249 | Nested blocks of s_and_saveexec, s_cbranch_execz, body and s_mov_b64 exec take every active lane to where it would get alone through nested ifs, leave the others as they were, restore EXEC and change no scalar register but the save pairs |
| `DivergenceCode.CodeRunsTree` | emulator/src/gpu/compute_unit.cpp:14-42 | The fetch-execute loop runs the code of nested blocks, wherever in a kernel it is, and does what the blocks mean, skipping a body no lane takes |
| `DivergenceCode.KernelIsWellFormed` | emulator/src/commons/parser.cpp:93-131 | The code of nested blocks is a well-formed kernel whose branches go forward |
| `DivergenceCode.ParsedIsLoaded` | emulator/src/commons/parser.cpp:93-131 | Parsing that code puts each instruction at its address with its width |
| `DivergenceCode.KernelRunsLanesAlone` | emulator/src/gpu/compute_unit.cpp:14-42 | A kernel made of such blocks, as the parser leaves it, run from address 0 on a wavefront with any EXEC mask, ends at s_endpgm within its number of instructions, with EXEC as it started and every lane as if it had run alone |
| `UniformBranches.ChoiceIsWellFormed` | emulator/src/commons/parser.cpp:93-131 | The code of an if-else on a condition of the whole wavefront is a well-formed kernel whose branches go forward |
| `UniformBranches.ChoiceRunsOnePart` | emulator/src/alu/alu_sopp.cpp:4-53 | s_cbranch_<condition> over a first part that ends in s_branch, and a second part: parsed and run from address 0, the kernel ends at s_endpgm within its number of instructions having run exactly one part, which one being decided by SCC, VCC, EXEC or the debug bits as each of the eleven conditions says |
| `UniformBranches.ChoiceRunsLanesAlone` | emulator/src/alu/alu_sopp.cpp:40-47 | With s_cbranch_scc0 every active lane ends as if it had run the first part alone if SCC was set, the second otherwise |
| `Channels.NoLostWakeup` | common/debugger/channel/Channel.h:33-92 | In every state any number of readers, writers and closers can reach: open and full with readers asleep means a reader is already awake, open and empty with writers asleep means a writer is already awake, and once closed nobody sleeps |
| `Channels.WaitingCallCanEnd` | common/debugger/channel/Channel.h:36-38 | Whenever the slot is full or the channel closed and some read is waiting, a woken reader can take its turn, and no turn taken then goes back to sleep; likewise for write |
| `Channels.OneIsWoken` | common/debugger/channel/Channel.h:33-84 | A value written wakes exactly one sleeping reader, a value taken exactly one sleeping writer, if there is any; nobody else is woken |
| `Channels.LosslessFifo` | common/debugger/channel/Channel.h:33-97 | In every reachable state the values returned so far, in order, followed by the slot are the values of the successful writes in order, and the empty flag agrees with the slot |
| `Channels.CallsTellTheTruth` | common/debugger/channel/Channel.h:33-84 | A turn of read returns the oldest value not yet taken exactly if there is one, waits exactly if there is none and the channel is open, and returns nothing exactly if there is none and it is closed; tryRead returns nothing exactly when closed or everything is taken; a turn of write is refused exactly after a close, waits exactly while open with a value not taken, and else succeeds |
| `Channels.ClosedValueIsLeftToRead` | common/debugger/channel/Channel.h:33-66 | After write, close, tryRead the value is still in the slot, and read returns it |
| `Channels.NoWriteAfterClose` | common/debugger/channel/Channel.h:69-92 | After a close no write succeeds, no tryRead returns a value and no call goes to sleep |
| `Channels.Channel.constructor` | common/debugger/channel/Channel.h:14-16 | A new channel is open and empty |
| `Channels.Channel.Read` | common/debugger/channel/Channel.h:33-50 | One turn of read with the lock held is a step of the monitor: what it returns and what it leaves in the slot |
| `Channels.Channel.TryRead` | common/debugger/channel/Channel.h:52-66 | tryRead is a step of the monitor: a value exactly if there is one and the channel is open |
| `Channels.Channel.Write` | common/debugger/channel/Channel.h:68-84 | One turn of write is a step of the monitor: what it returns and what it leaves in the slot |
| `Channels.Channel.Close` | common/debugger/channel/Channel.h:86-92 | close is a step of the monitor and wakes everybody |
| `Breakpoints.LastChangeDecides` | common/debugger/breakpoint/BreakpointStorage.cpp:3-23 | The last change to a breakpoint decides whether it is set, whatever the set was before |
| `Breakpoints.ReplayingTailIsIdentity` | common/debugger/breakpoint/BreakpointStorage.cpp:3-23 | Replaying any tail of the changes on the set they led to changes nothing |
| `Breakpoints.BreakpointStorage.AddBreakpoint` | common/debugger/breakpoint/BreakpointStorage.cpp:3-12 | Exactly one breakpoint more, global or of one wavefront |
| `Breakpoints.BreakpointStorage.RemoveBreakpoint` | common/debugger/breakpoint/BreakpointStorage.cpp:14-23 | Exactly that breakpoint gone |
| `Breakpoints.BreakpointStorage.HasBreakpoint` | common/debugger/breakpoint/BreakpointStorage.cpp:44-46 | Found exactly if a global breakpoint is set at the address |
| `Breakpoints.TruncateKeepsLowWord` | debugger/Debugger.cpp:75-89 | Addresses below 2^32 keep their breakpoints apart; two addresses share one exactly if they differ by a multiple of 2^32 |
| `DebugSession.DebugContext.ProcessMessage` | emulator/src/flow/debug_context.cpp:47-88 | Stop gives mode STOP; Run gives STEP or RUN as it asks, and a breakpoint is set or removed, unless the mode is STOP or EXC; a request is answered once in any mode; nothing else changes |
| `DebugSession.DebugContext.ReadMessages` | emulator/src/flow/debug_context.cpp:27-34 | Messages are taken in order and handled one by one, each followed by its reply |
| `DebugSession.DebugContext.WaitForResume` | emulator/src/flow/debug_context.cpp:36-45 | The same; it ends in mode PAUSE only with the channel closed and empty |
| `DebugSession.DebugContext.ProcessInstruction` | emulator/src/flow/debug_context.cpp:90-100 | An instruction is announced and held up exactly in mode STEP or at a breakpoint in a non-terminal mode; otherwise nothing is read or sent; it is let go in PAUSE only with the channel closed and empty |
| `DebugSession.DebugContext.ProcessException` | emulator/src/flow/debug_context.cpp:102-105 | In any mode the mode becomes EXC and one OnException is sent |
| `DebugSession.DebugContext.RunInstructions` | emulator/src/gpu/compute_unit.cpp:16-41 | Any sequence of instructions, throwing or not, is a session that follows the protocol, and everything read and sent is in its log |
| `DebugTheorems.TerminalIsFinal` | emulator/src/flow/debug_context.cpp:90-105 | From STOP or EXC on nothing is held up or read, the breakpoints stay, and all that is sent is one OnException for each instruction that throws |
| `DebugTheorems.StopIsNotUndone` | emulator/src/flow/debug_context.cpp:62-86 | A Stop is not undone by messages read after it |
| `DebugTheorems.BreakpointIsAnnounced` | emulator/src/flow/debug_context.cpp:90-100 | Every instruction run in a non-terminal mode at a current breakpoint was announced by exactly one OnPause of its own; before it runs nothing is exchanged without one, and no OnException is; the OnException of an instruction that throws comes last, announced or not |
| `DebugTheorems.MessagesDecide` | emulator/src/flow/debug_context.cpp:36-88 | While an instruction is held up any Stop read decides the mode; without one the last Run read does, or the mode stays PAUSE, and the changes read are applied to the breakpoints in order |
| `DebugTheorems.StepRunsOneInstruction` | emulator/src/flow/debug_context.cpp:73-83 | When the last Run read while an instruction is held up asks for a step, no Stop is read and the instruction does not throw, the next instruction is announced before it runs |
| `DebugTheorems.ResumeRunsToNextBreakpoint` | emulator/src/flow/debug_context.cpp:90-100 | When the last Run read does not ask for a step, nothing is announced or read until an instruction throws or is at a breakpoint, as the messages read have left them, and that one is announced |
| `DebugTheorems.StopOrThrowRunsToTheEnd` | emulator/src/flow/debug_context.cpp:62-105 | Once a Stop has been read or an instruction has thrown, no later instruction is held up and the breakpoints stay |
| `DebugTheorems.EveryRequestIsAnswered` | emulator/src/flow/debug_context.cpp:47-61 | Over a whole session the replies sent are exactly those the requests ask for, in order, and the OnExceptions sent exactly those of the instructions that threw, in order |
| `DebuggerLink.Debugger.OnSetBreakpoint` | debugger/Debugger.cpp:75-81 | The set gains exactly the address cut to 32 bits, and the message is sent exactly when a kernel has been started: the step of the link that changes a breakpoint |
| `DebuggerLink.Debugger.OnRemoveBreakpoint` | debugger/Debugger.cpp:83-89 | The same for removal |
| `DebuggerLink.Debugger.Command` | debugger/Debugger.cpp:113-133 | Resume, step, stop and the requests send their message exactly when a kernel has been started |
| `DebuggerLink.Debugger.RunKernel` | debugger/Debugger.cpp:140-153 | A kernel counts as started only if one is selected |
| `DebuggerLink.InFlightIsTail` | debugger/Debugger.cpp:75-89 | The changes still in flight are always the tail of all changes made |
| `DebuggerLink.CopyConverges` | debugger/Debugger.cpp:140-153 | Whenever the copy was taken, applying the messages in flight to the emulator's breakpoints gives the debugger's, until the mode becomes terminal |
| `DebuggerLink.ConvergesIffNotTerminal` | emulator/src/flow/debug_context.cpp:62-64 | Every reachable state of a mode has the agreement of the two sets if and only if the mode is not terminal |
| `DebuggerLink.TerminalCopyIsFrozen` | emulator/src/flow/debug_context.cpp:62-64 | From a terminal mode on, whatever both sides do while the kernel runs, the copy stays as it is |
| `DebuggerLink.TerminalCopyAgreesIff` | emulator/src/flow/debug_context.cpp:62-64 | From there on the copy equals the debugger's set if and only if the last of the missed changes to each breakpoint leaves it as the copy has it; missed are the changes in flight when the mode became terminal and all later ones |
| `DebuggerLink.TerminalCopyFallsBehind` | emulator/src/flow/debug_context.cpp:62-64 | For STOP and for EXC, a run in which the two sets stay different with nothing in flight |
| `NDRange.ItemOnAxis` | emulator/src/gpu/dispatcher.cpp:18-27 | On one axis every item is in the group its quotient names at the place its remainder names |
| `NDRange.GroupsTileRange` | emulator/src/gpu/dispatcher.cpp:17-46 | The groups in dispatch order contain every point of the range in exactly one group at exactly one local position, and nothing outside (OpenCL 1.2 section 3.2) |
| `NDRange.GroupsHoldRange` | emulator/src/gpu/dispatcher.cpp:17-46 | The groups together hold as many items as the range, and after any number of groups exactly the items of the planes, rows and groups before |
| `NDRange.RankNext` | emulator/src/gpu/dispatcher.cpp:33-41 | The id after each id is the next one with x fastest |
| `NDRange.GroupNumber` | emulator/src/gpu/dispatcher.cpp:33-41 | Group (x, y, z) has number (z * height + y) * width + x |
| `Dispatchers.Dispatcher.constructor` | emulator/src/gpu/dispatcher.cpp:5-11 | The number of groups is the product of the three amounts in 64 bits |
| `Dispatchers.Dispatcher.NextWg` | emulator/src/gpu/dispatcher.cpp:17-46 | Gives group number k on call k, remainder groups included; once past the end it gives nothing if and only if the group size divides the range along z |
| `Dispatchers.PastTheEndWraps` | emulator/src/gpu/dispatcher.cpp:18-22 | Past the end of 3 items in groups of 2, what seems to be left has wrapped around, so a group comes out |
| `Dispatchers.Dispatcher.DispatchAll` | emulator/src/Executor.cpp:35-40 | The loop emits the groups in order, and all of them if and only if their number fits 64 bits |
| `Dispatchers.HugeRangeHasNoGroups` | emulator/src/gpu/dispatcher.cpp:7-10 | A range of 2^32 by 2^32 items in groups of one dispatches nothing |
| `WorkGroups.WorkGroup.InitWorkitems` | emulator/src/flow/wavefront.cpp:19-27 | The nested loops list every local id of the group once, z fastest |
| `LaneCoverage.ItemAt` | emulator/src/flow/wavefront.cpp:19-27 | Item (x, y, z) is number (x * height + y) * depth + z of its group |
| `WorkGroups.WorkGroup.InitWfRegs` | emulator/src/flow/wavefront.cpp:92-97 | Each lane of a wavefront gets the local id of its item in its first three registers, as far as it has them, and no lane overwrites another |
| `WorkGroups.WorkGroup.InitWavefronts` | emulator/src/flow/wavefront.cpp:29-46 | Wavefronts of 64 and a remainder, EXEC with one bit an item; every one starts from item 0 since the wavefront number never advances |
| `LaneCoverage.LaunchAll` | emulator/src/Executor.cpp:35-40 | The groups the dispatcher gives, each with its work items and wavefronts, and the registers every wavefront starts with |
| `LaneCoverage.WavesHoldItems` | emulator/src/flow/wavefront.cpp:32-45 | The set EXEC bits of the wavefronts of a group total its work items |
| `LaneCoverage.ActiveLanesAreItems` | emulator/src/flow/wavefront.cpp:29-46 | Over a whole launch the set EXEC bits total the items of the range |
| `LaneCoverage.EachItemOnceIffOneWavefront` | emulator/src/flow/wavefront.cpp:29-45 | The active lanes of the wavefronts of a group hold every local id of it in v0, v1, v2 exactly once if and only if the group has at most 64 items |
| `LaneCoverage.EachPointOnceIff` | emulator/src/flow/wavefront.cpp:92-97 | Group id times group size plus (v0, v1, v2) over the active lanes of all wavefronts launched lists every point of the range exactly once and nothing else, if and only if no group has more than 64 items |
| `BitCount.BitCount64IsOnes` | emulator/src/commons/util.h:17-21 | The masked additions and the multiplication count the set bits of every 64-bit word |
| `BitCount.BitCount32IsOnes` | emulator/src/commons/util.h:11-15 | The same for 32 bits |
| `BitReverse.RevMasked` | emulator/src/commons/util.h:32-40 | Bit i of the reversed word is bit 63 - i |
| `BitReverse.RevMasked32` | emulator/src/commons/util.h:23-30 | Bit i of the reversed 32-bit word is bit 31 - i |
| `BitReverse.RevRev64` | emulator/src/commons/util.h:32-40 | Reversal is its own inverse |
| `BitReverse.RevRev32` | emulator/src/commons/util.h:23-30 | Reversal is its own inverse on 32 bits |
| `BitReverse.Ff1B64` | emulator/src/alu/alu_sop1.cpp:147-156 | The loop finds the lowest set bit, or -1 if there is none |
| `BitReverse.Ff1B32` | emulator/src/alu/alu_sop1.cpp:135-145 | The same in the low word |
| `BitReverse.FlbitB64` | emulator/src/alu/alu_sop1.cpp:170-179 | The loop finds the distance of the highest set bit from the top, or -1 |
| `BitReverse.FlbitB32` | emulator/src/alu/alu_sop1.cpp:158-168 | The same in the low word |
| `BitReverse.FlbitIsFf1OfReversed64` | emulator/src/alu/alu_sop1.cpp:147-179 | s_flbit of a word is s_ff1 of the reversed word |
| `BitReverse.FlbitIsFf1OfReversed32` | emulator/src/alu/alu_sop1.cpp:135-168 | The same for 32 bits |
| `BitReverse.ZerosAndOnes64` | emulator/src/alu/alu_sop1.cpp:46-59 | s_bcnt1 is the number of set bits, s_bcnt0 of clear bits, 64 together |
| `BitReverse.ZerosAndOnes32` | emulator/src/alu/alu_sop1.cpp:41-54 | The same for 32 bits |
| `LaneRank.RankIsCount` | emulator/src/alu/alu_vop3.cpp:244-254 | v_mbcnt_lo then v_mbcnt_hi from 0 gives each lane the number of set mask bits below it |
| `LaneRank.RanksNumberSetLanes` | emulator/src/alu/alu_vop3.cpp:244-254 | On the set lanes of any mask that is a bijection onto 0 .. popcount - 1 |
| `CarryChain.ScalarUnit.Run` | emulator/src/flow/wavefront.cpp:170-197 | One instruction, on registers or constants, writes the low word of its 64-bit result and its carry |
| `CarryChain.ScalarUnit.RunAll` | emulator/src/alu/alu_sop2.cpp:9-13 | A list of instructions is their composition |
| `CarryChain.AddChainAdds` | emulator/src/alu/alu_sop2.cpp:9-24 | s_add_u32 and n - 1 times s_addc_u32 leave the exact sum of two n-limb numbers, carry in SCC, for any n and any mix of registers and constants, in any placement where no source register is overwritten before it is read, and change no other register |
| `CarryChain.SubChainSubtracts` | emulator/src/alu/alu_sop2.cpp:291-309 | s_sub_u32 and s_subb_u32 leave the exact difference with the borrow in SCC, in the same generality |
| `CarryChain.HeldInConstants` | emulator/src/flow/wavefront.cpp:408-420 | A number below 2^(32 n) as n constant sources is read as that number |
| `CarryChain.AddConstantAdds` | emulator/src/alu/alu_sop2.cpp:9-24 | A constant of any number of words is added exactly |
| `CarryChain.SubUndoesAdd` | emulator/src/alu/alu_sop2.cpp:9-24 | Subtracting what was added gives the first number back, and the borrow equals the carry |
| `Storages.StoreInRange` | emulator/src/gpu/storage.cpp:37-53 | A write inside the memory puts its bytes in place, highest first, and leaves every other byte |
| `Storages.StoreStopsAtEnd` | emulator/src/gpu/storage.cpp:37-53 | A write that runs over the end puts the bytes that fit in place and then throws |
| `Storages.OffsetWraps` | emulator/src/gpu/storage.cpp:42-53 | Offsets count in 32 bits: the byte after offset 2^32 - 1 goes to offset 0 |
| `Storages.BytesAreDigits16` | emulator/src/gpu/storage.cpp:42-45 | A 16-bit word is its two stored bytes to the base 256, the first one counting most |
| `Storages.BytesAreDigits32` | emulator/src/gpu/storage.cpp:46-49 | So is a 32-bit word its four |
| `Storages.BytesAreDigits64` | emulator/src/gpu/storage.cpp:50-53 | So is a 64-bit word its eight |
| `Storages.ValueIsNumber` | emulator/src/gpu/storage.cpp:29-35 | The value of eight bytes is the 64-bit word as a number |
| `Storages.StoreConcat` | emulator/src/gpu/storage.cpp:42-53 | Writing a word as two halves is writing its bytes, also when it stops half way at the end of the memory |
| `Storages.Storage.constructor` | emulator/src/gpu/storage.cpp:78-81 | A new memory holds zeros |
| `Storages.Storage.WriteByte` | emulator/src/gpu/storage.cpp:37-40 | One byte, or an exception |
| `Storages.Storage.Write16` | emulator/src/gpu/storage.cpp:42-45 | Two bytes, the high one first |
| `Storages.Storage.Write32` | emulator/src/gpu/storage.cpp:46-49 | Four bytes, the high one first |
| `Storages.Storage.Write64` | emulator/src/gpu/storage.cpp:50-53 | Eight bytes, the high one first |
| `Storages.Storage.ReadData` | emulator/src/gpu/storage.cpp:5-21 | The bytes of a range; past the end an exception, or a shorter result if safe; nothing for a range that wraps around |
| `Storages.Storage.Read4Bytes` | emulator/src/gpu/storage.cpp:23-27 | The word at an address, or an exception |
| `Storages.Storage.Read8Bytes` | emulator/src/gpu/storage.cpp:29-35 | The double word at an address, or an exception |
| `Storages.StoredByteReadsBack` | emulator/src/gpu/storage.cpp:37-40 | A byte stored anywhere in memory is there, other bytes unchanged |
| `Storages.StoredHalfReadsBack` | emulator/src/gpu/storage.cpp:42-45 | So are the two bytes of a 16-bit word |
| `Storages.StoredWordReadsBack` | emulator/src/gpu/storage.cpp:23-49 | A 32-bit word stored anywhere in memory is what read_4_bytes returns, other bytes unchanged |
| `Storages.StoredDoubleReadsBack` | emulator/src/gpu/storage.cpp:29-53 | A 64-bit word stored anywhere in memory is what read_8_bytes returns, other bytes unchanged |
| `ScalarLoad.ToUint32V` | emulator/src/commons/util.cpp:29-41 | The nested loops give the 32-bit words of the bytes, highest byte first |
| `ScalarLoad.RunSLoadDwordN` | emulator/src/alu/alu_smem.cpp:3-13 | For any number of dwords: the loaded words go to the destination registers, first word to the highest, and no other register changes; a load past the end throws and writes nothing |
| `ScalarLoad.LoadedWords` | emulator/src/alu/alu_smem.cpp:3-26 | Register by register: word k of the n read is in register first + n - 1 - k |
| `ScalarLoad.AddressIsSum` | emulator/src/alu/alu_smem.cpp:3-5 | The address loaded from is base plus offset in 64 bits, the offset cut to 32 |
| `ScalarLoad.LoadedWordIsStored` | emulator/src/alu/alu_smem.cpp:3-13 | A stored word loaded into any register reads as that value, no other register changed |
| `ScalarLoad.LoadedDoubleIsStored` | emulator/src/alu/alu_smem.cpp:3-13 | A stored double word loaded into any register pair reads as that value, no other register changed |
| `ScalarLoad.StoreThenLoad` | emulator/src/alu/alu_smem.cpp:3-13 | A word written to the memory object and loaded by s_load_dword, whose base and offset operands add up to its address, is in the destination register; no other register has changed |
| `ScalarLoad.StoreThenLoadX2` | emulator/src/alu/alu_smem.cpp:3-16 | The same for a double word and s_load_dwordx2, the low word in the first register |
| `Arguments.EvaluateArgSize` | emulator/src/Executor.cpp:49-61 | Eight bytes a pointer, its size a scalar, nothing without data; an exception for any other kind |
| `Arguments.SizeOfArguments` | emulator/src/Executor.cpp:49-61 | There is a size exactly if every argument with data is a pointer or a scalar; it is eight bytes for each pointer and the size of each scalar |
| `Arguments.WriteBytes` | emulator/src/Executor.cpp:77-81 | The byte loop writes the value and advances the offset |
| `Arguments.WriteArg` | emulator/src/Executor.cpp:63-94 | Table entry, data and the two running positions for each kind of argument, and exactly what is written when an exception stops it |
| `Arguments.WriteOne` | emulator/src/Executor.cpp:63-94 | A pointer gets an entry that points at where its bytes go and the next entry is eight bytes on; a scalar gets no entry; only bytes written move the place for the next |
| `Arguments.WriteArgs` | emulator/src/Executor.cpp:28-34 | All arguments in turn, with the address of each table entry, which is eight bytes on for each pointer before it |
| `Arguments.ReadArgs` | emulator/src/Executor.cpp:96-116 | A writable pointer argument is read through its table entry, with every outcome of the read; one without data or write permission is not read; any other kind throws |
| `Arguments.ArgumentLayout` | emulator/src/Executor.cpp:28-34 | For any pointers, scalars and arguments without data that fit, writing succeeds, entries start at byte 48, and the bytes written lie behind the table and apart from each other |
| `Arguments.ArgumentReadsBack` | emulator/src/Executor.cpp:63-116 | Each entry points at the place of its own argument, and each place holds exactly the bytes written, whatever arguments follow; below the table nothing changes |
| `Arguments.ArgumentIsReadBack` | emulator/src/Executor.cpp:96-116 | Reading a writable argument through its table entry, whatever arguments follow, gives exactly the bytes written |
| `Arguments.AreasApartIff` | emulator/src/Executor.cpp:73-84 | No space is set aside for a pointer without read permission: the areas a kernel is given are apart if and only if every such argument but the last is at most eight bytes long |
| `Arguments.TwoResultsOverlap` | emulator/src/Executor.cpp:73-84 | Two write-only arguments of sixteen bytes share eight of them |

## Left out

- Driver.Runtime.CreateBuffer: does not model CL_MEM_USE_HOST_PTR, the access flags and their mutual exclusion, null contexts, or the 64-bit wrap of used memory plus size, because such an allocation fails on its own.
- Driver.Runtime.EnqueueCommand: takes wait lists inside one queue, and none on an in-order queue, where the command's destructor asserts that the list is empty; the constructors' retains come before the links they precede. The handle to a new event is the caller's even if the caller did not ask for it, since nobody else can release it.
- Driver.Runtime.Retain: does not model the 32-bit overflow of counters.
- DriverClient.EnqueueTransfer: takes ranges whose sum does not wrap; what happens otherwise is DriverClient.RangeCheckIsExact. Host access flags of a buffer are not modelled.
- DriverClient.Client.Serve: a client uses only handles it holds and asks for in-range, non-overlapping transfers; fill and copy are not checked by the driver.
- Driver.Runtime.WaitForEvents: stops where the code goes on with a deleted command; Driver.Runtime.LoseCommand has what happens up to there when that is the command waited for. An event's status is never negative, since only user events can fail.
- User events, event callbacks, mem object destructor callbacks, kernels, programs and the kernel execution command, info queries, images, mapping, rectangular transfers.
- WavefrontState.VectorIsPerLane: holds for operations that see their own lane's operands, number and VCC bit; v_cndmask_b32, which reads VCC across lanes, EXEC and VCC as vector sources and registers beyond those the kernel declares are outside it. What each operation computes is a parameter.
- Wavefronts.Wavefront.RunInstr: instructions other than s_and_saveexec_b64, s_mov_b64, VOP1 to VOP3 and branches are an arbitrary function on the registers; M0 and the MODE register are not modelled, and the two debug condition bits of STATUS are constants of the run.
- Wavefronts.Wavefront.Turn: does not model the exit at a barrier, or that an exception thrown by an instruction is caught; the report of the exception is DebugSession.DebugContext.ProcessException.
- KernelCode.ParseKernelCode: starts from lines already split into address, mnemonic and operands.
- Wavefronts.Wavefront.RunWavefront: kernels with backward branches, whose loop need not end (WavefrontControl.ControlStaysInside covers their runs of any length); barriers (the loop breaks without advancing), and the call to the debugger in each turn, which is DebugSession.DebugContext.RunInstructions.
- VOPC compares, which never write their result back; the fork and join instructions; FLAT memory; floating point.
- ScalarLoad.RunSLoadDwordN: takes ranges that do not wrap around 64 bits, for which the code asserts that it got as many words as registers.
- WorkGroups.WorkGroup.InitWfRegs: the scalar registers set at launch; a register count for which set_vgpr asserts.
- WorkGroups.WorkGroup.InitWavefronts: the same.
- LaneCoverage.LaunchAll: kernels with fewer than three vector registers, and running the groups between launching them, which changes their own registers only.
- Channels.Channel.Read: one turn with the lock held; the loop around it is in the trace. Unlocked reads of the flags are atomic steps. Freedom from deadlock of the two channels together is not promised by the code.
- DebugSession.DebugContext.Read: the messages that will still arrive before the channel is closed are a finite list; contents of replies and paging of contexts are not modelled.
- DebuggerLink.CopyConverges: copying the breakpoints is one atomic step, and the channels are closed only after the emulator thread has ended, as the destructor does.
- DebuggerLink.Debugger.RunKernel: does not model joining the previous emulator thread and starting the new one, which are the steps Finish and Copy of the link.
- Arguments.ReadArgs: reading back a scalar argument, which the code asserts away.
- IPC, GUI, logging, file output, disassembly, device configuration.
