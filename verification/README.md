# Models and proofs for the Sniper 5.2 tools and libraries

Sniper is a multi-core simulator. Its front end records what a program executes in the
SIFT trace format, its back end replays it; both rely on a few small concurrent and
data-structure classes, and a set of Python tools evaluates the results. This project
models the parts with the most intricate state and proves what they are for.

`dafny verify dfyconfig.toml` checks everything.

## What is modelled

- `graphs`, `tarjan_invariants`, `find_cycles`: Tarjan's algorithm in `gprof2dot.py`,
  restarted with empty tables at every function not visited yet, and the cycles it
  assigns. `prune` cuts a profile down to the walks between two functions.
- `weighted_graphs`, `propagation`, `integrate`: call ratios and the integration of
  times along the calls of profiles without cycles of several functions, over reals.
  `acyclic` ties those profiles to what finding cycles leaves behind.
- `sift_format`, `sift_writer_spec`, `sift_reader_spec`: the bytes of a trace and what
  reading them means, as functions; `sift_round_trip`, `sift_theorems`: that a trace
  comes back as it was made, and exactly when; `sift_writer`, `sift_reader`: the classes
  that write and read it, proved against those functions; `sift_session`,
  `sift_protocol`: the two-way session in which a writer waits for the answer to a
  system call, magic instruction or emulation request while the reader accesses memory
  over the same pair of streams.
- `barrier`, `barrier_interrupts`, `semaphore`, `mt_circular_queue` (on
  `circular_queue`), `set_lock`: the synchronisation classes as transition systems of any
  number of threads, one step for every lock operation, write to a futex word, FUTEX_WAIT
  and FUTEX_WAKE. `threads` counts threads by place.
- `spin_loop_detector`: the tables of the spin detector of one thread.
- `fsb_pool`, `fsb_allocator`: the fixed-size block allocator, its free lists threaded
  through the memory it hands out; the pool is what the memory stands for.
- `json_text`, `json_round_trip`, `json_io`: the printer and the parser of
  `localjson.py`, as functions, as theorems, and as the classes with their index and
  buffer.
- `bit_vector`: the bit vector with its resumable search.
- `call_forest`, `call_tree`: totals and folding of the call tree in `gen_profile.py`;
  `stack_items`: the collapse of stacks in `buildstack.py`; both on `set_sums`. `sets`,
  `numbers` and `options` are small helpers.

Code that changes things in place is modelled by classes and loops whose contracts tie
the new state to a specification; the theorems are about the specification. A loop or a
long body is at times cut into several methods, one after the other.

## What turned out not to hold

- Barrier: the loop around FUTEX_WAIT in `common/misc/cond.cc:43-47` never repeats,
  because a failing `syscall` returns -1 and not -EINTR. With interrupted waits the
  barrier is right in all runs only for one thread
  (`BarrierInterrupts.InterruptedSafeExactly`, with the run in
  `BarrierInterrupts.InterruptBreaks`). Which interruptions do no harm is told exactly,
  state by state (`BarrierInterrupts.HarmlessExactly`).
- SIFT: a trace comes back exactly when, call by call, sizes are not zero, an
  instruction with a simple record is an executed one, code in page mode stays below the
  top page, output is not empty and fits its size field, strings are shorter than
  2^16 - 1 bytes, and no address is executed again with another length
  (`SiftTheorems.TraceExact`, with `Faithful` and `SameSize`). The length is compared on
  the way through the map only; along the next pointer the cached instruction comes back
  (`SiftTheorems.OtherLength`, and `SiftTheorems.LengthsMatter` for a trace of two calls).
- SIFT: the loop over pages compares addresses with the last page. It has no end when the
  last byte of the instruction is in the top page of the address space, and only then
  (`SiftWriterSpec.PageLoopEndsExactly`, `SiftWriterSpec.LoopEndsWhere`, with an input in
  `SiftWriterSpec.EndlessLoop`), and sends nothing for code that goes over the top
  (`SiftWriterSpec.LoopSkippedExactly`). Runs are of calls for which it ends.
- `CircularQueue`: of capacity 0 it is full and empty at once, and then producer and
  consumer both sleep (`MtCircularQueue.BothSleepExactly`); `size()` can be wrong from
  more than 2^31 cells on (`CircularQueue.Ring.SizeExact`, `CircularQueue.SizeWraps`).
- Spin detector: the value stored for a register is not renewed when a loop's bit is
  cleared, so registers written since the last visit are compared with the first one
  (`SpinLoopDetector.LaterRevisitExact`); when that is still the right answer is
  `SpinLoopDetector.RevisitTrueExactly`, and a run in which it is not
  `SpinLoopDetector.LaterRevisitFooled`.
- `Cycle.add_function`: the loop that is to add the members of a former cycle tests
  whether a function is a member that has just been made one, and adds nobody
  (`FindCycles.Cycle.AddFunction`).
- `integrate`: a ratio with denominator 0 is 1, so a function with several calls, all
  counted zero times, passes its total on several times (`Propagation.ZeroCountsDouble`;
  `Propagation.LossExactly` says by how much, `Propagation.ConservedExactly` when it
  does not matter).
- JSON: `_read` has a case for a comment that cannot be reached, since comments have been
  skipped before: what `JsonText.EatWhitespace` leaves never begins with a slash. `[ ]`
  and `{ }` with a blank are errors (`JsonRoundTrip.BlankContainerExactly`, and
  `JsonRoundTrip.BlankContainers` for these two).
- `gen_profile.py`: folding drops how often folded calls were made; how often calls were
  made adds up only when those were never counted (`CallTree.FoldingKeepsCallsExactly`,
  and `CallTree.FoldedOnceLost` for a call folded once).
- `Semaphore::broadcast` wakes everybody but posts a single unit: all sleepers get
  through exactly when there is one (`Semaphore.BroadcastExactly`), and otherwise one that
  was woken may never return (`Semaphore.BroadcastStrands`).

## Model

| member | source | states |
|---|---|---|
| FindCycles.Cycle.AddFunction | eecs583-pjct/sniper-5.2/tools/gprof2dot.py:275-283 | The function joins the cycle, whatever cycle it was in, and nobody else does: the loop over the members of its former cycle, with its test, adds none of them. |
| FindCycles.Profile.Validate | eecs583-pjct/sniper-5.2/tools/gprof2dot.py:302-310 | Every function keeps exactly its calls to known functions, in their order, and the graph is closed under calls. |
| TarjanInvariants.PushKeeps | eecs583-pjct/sniper-5.2/tools/gprof2dot.py:386-391 | Discovering a function keeps the invariant of the search: the stack is a chain of explored components, every function on it leads back to one still open, and what is done leads nowhere open. |
| TarjanInvariants.FollowBack | eecs583-pjct/sniper-5.2/tools/gprof2dot.py:397-398 | A call into the stack keeps what is known midway through the calls of a function, with the lowlink lowered to the callee's order. |
| TarjanInvariants.FollowDone | eecs583-pjct/sniper-5.2/tools/gprof2dot.py:392-398 | A call to a function that an earlier component took changes nothing. |
| TarjanInvariants.FollowNew | eecs583-pjct/sniper-5.2/tools/gprof2dot.py:394-396 | The same after a function met for the first time has been explored in turn. |
| TarjanInvariants.TopIsScc | eecs583-pjct/sniper-5.2/tools/gprof2dot.py:399-404 | When a lowlink equals the order, the functions above it on the stack are exactly one strongly connected component. |
| TarjanInvariants.PopKeeps | eecs583-pjct/sniper-5.2/tools/gprof2dot.py:399-401 | Cutting that component off the stack keeps the invariant. |
| TarjanInvariants.StayKeeps | eecs583-pjct/sniper-5.2/tools/gprof2dot.py:399-400 | Otherwise the function stays, and still leads back to one that is open. |
| FindCycles.SearchSettles | eecs583-pjct/sniper-5.2/tools/gprof2dot.py:317-320 | A search with fresh tables leaves every function it reached with the right cycle, also those that an earlier search had settled and this one assigned again. |
| FindCycles.EndsRight | eecs583-pjct/sniper-5.2/tools/gprof2dot.py:312-329 | Once every function is settled, sharing a cycle means reaching each other, and a cycle holds exactly the component of its members. |
| FindCycles.Profile.Tarjan | eecs583-pjct/sniper-5.2/tools/gprof2dot.py:378-407 | One call explores a function: the invariant holds again, its lowlink is attained and bounds every way back into the older stack, and all components completed on the way have been assigned. |
| FindCycles.Profile.FindCycles | eecs583-pjct/sniper-5.2/tools/gprof2dot.py:312-329 | On any closed call graph: two distinct functions have the same cycle exactly when each reaches the other, a cycle is made of exactly its component, functions on no cycle of several functions have none, and the list of cycles holds each of them once. |
| Propagation.RatioSum | eecs583-pjct/sniper-5.2/tools/gprof2dot.py:415-448 | With counts of at least zero the ratios of the calls to a function add up to one if any of them was counted more than zero times, and otherwise to the number of counted calls, because 0/0 gives 1. |
| AcyclicProfiles.FindsNone | eecs583-pjct/sniper-5.2/tools/gprof2dot.py:312-329 | Profiles without cycles but self-calls are exactly those in which finding cycles lists none, and exactly those in which it writes no function a cycle. |
| WeightedGraphs.Exchange | eecs583-pjct/sniper-5.2/tools/gprof2dot.py:485-501 | What all calls bring is the same summed by caller and by callee. |
| WeightedGraphs.Balance | eecs583-pjct/sniper-5.2/tools/gprof2dot.py:450-501 | Among functions that call only each other, the totals, each as far as no call passes it on, add up to the functions' own times: for any weights. |
| Propagation.TotalsSolve | eecs583-pjct/sniper-5.2/tools/gprof2dot.py:483-501 | The totals answer their equations: own time plus each callee's total scaled by the call's ratio. |
| Propagation.LossExactly | eecs583-pjct/sniper-5.2/tools/gprof2dot.py:450-501 | On every profile without cycles: the totals of the functions that nobody else calls are the time of the whole profile less, over all called functions, what each total exceeds the shares its calls take of it by. |
| Propagation.Conserved | eecs583-pjct/sniper-5.2/tools/gprof2dot.py:450-501 | With counts of at least zero, the totals of the functions that nobody else calls add up to the time of the whole profile, if every other function has a call counted more than zero times or only one counted call. |
| Propagation.ZeroExactly | eecs583-pjct/sniper-5.2/tools/gprof2dot.py:483-501 | With times of at least zero, a total is zero exactly when the function and all that calls with a ratio above zero lead to have no time of their own. |
| Propagation.ConservedExactly | eecs583-pjct/sniper-5.2/tools/gprof2dot.py:409-501 | With counts and times of at least zero, and every called function having a counted call, or none having several all counted zero times: they add up if and only if every called function that is not shared as it should be has no time, and neither has anything calls with a ratio above zero lead to from it. |
| Propagation.NoMoreThanWhole | eecs583-pjct/sniper-5.2/tools/gprof2dot.py:450-501 | With counts and times of at least zero: no function's total exceeds the time of the whole profile, if no called function has several counted calls that were all counted zero times; calls without a count are allowed. |
| Propagation.ZeroCountsDouble | eecs583-pjct/sniper-5.2/tools/gprof2dot.py:82-87 | Two calls counted zero times each take the whole of their callee: the totals of the tops are twice the time. |
| Integrate.Profile.CallRatios | eecs583-pjct/sniper-5.2/tools/gprof2dot.py:409-448 | The two passes give every call to another function its share of all counted calls to its callee, 0 when it has no count, and self-calls none. |
| Integrate.Profile.IntegrateCall | eecs583-pjct/sniper-5.2/tools/gprof2dot.py:495-501 | The result of a call is written once, onto none, and is its ratio times the callee's total. |
| Integrate.Profile.IntegrateFunction | eecs583-pjct/sniper-5.2/tools/gprof2dot.py:483-493 | Recursion with results kept ends on every profile without cycles, returns the total, and touches only functions that calls lead to, leaving each of those unchanged or complete. |
| Integrate.Profile.Integrate | eecs583-pjct/sniper-5.2/tools/gprof2dot.py:450-481 | Afterwards every function and every call to another function has its result, and the profile's total is the sum of all times. |
| Prune.OnWalkExactly | eecs583-pjct/sniper-5.2/tools/gprof2dot.py:331-369 | A function is on some walk from root to leaf exactly when root reaches it and it reaches leaf. |
| Prune.CallOnWalkExactly | eecs583-pjct/sniper-5.2/tools/gprof2dot.py:331-369 | The same for a call. |
| Prune.PruneRoot | eecs583-pjct/sniper-5.2/tools/gprof2dot.py:331-343 | The worklist ends, also on cycles, and keeps exactly what root reaches, with all its calls. |
| Prune.Upwards | eecs583-pjct/sniper-5.2/tools/gprof2dot.py:345-356 | The search against the calls ends and finds exactly what reaches leaf, and leaf. |
| Prune.PruneLeaf | eecs583-pjct/sniper-5.2/tools/gprof2dot.py:345-369 | Exactly the functions that reach leaf are kept, with exactly their calls to one another. |
| Prune.PruneBetween | eecs583-pjct/sniper-5.2/tools/gprof2dot.py:3262-3273 | One after the other they keep exactly the functions and exactly the calls on walks from root to leaf. |
| SiftFormat.FieldRoundTrip | eecs583-pjct/sniper-5.2/sift/sift_format.h:45-76 | A little-endian field of n bytes reads back as its value modulo 256 to the n, so a value that fits comes back. |
| SiftFormat.SimpleByteBack | eecs583-pjct/sniper-5.2/sift/sift_format.h:38-51 | The byte of a simple record gives back the size in its low four bits, the number of addresses and the branch flags; the instruction counts as executed without a predicate. |
| SiftFormat.ExtByteBack | eecs583-pjct/sniper-5.2/sift/sift_format.h:53-66 | The flag byte of an extended record gives back the number of addresses and all flags. |
| SiftFormat.TakeHeaderBack | eecs583-pjct/sniper-5.2/sift/sift_format.h:68-76 | The header of any other record gives back its type and its size in 32 bits. |
| SiftRoundTrip.StoreKnown | eecs583-pjct/sniper-5.2/sift/sift_reader.cc:172-201 | Code records put into pages of any former content make exactly that code known. |
| SiftRoundTrip.FetchKnown | eecs583-pjct/sniper-5.2/sift/sift_reader.cc:534-560 | Known code is fetched back whole, over page borders. |
| SiftRoundTrip.PagesRead | eecs583-pjct/sniper-5.2/sift/sift_writer.cc:160-188 | The page records written before an instruction read back, and bring the pages it lies on. |
| SiftRoundTrip.MappingsRead | eecs583-pjct/sniper-5.2/sift/sift_writer.cc:725-751 | The translations written before an instruction read back. |
| SiftRoundTrip.SentWhole | eecs583-pjct/sniper-5.2/sift/sift_writer.cc:597-616 | A string arrives whole exactly when its length fits in 16 bits. |
| SiftRoundTrip.AnnounceBack | eecs583-pjct/sniper-5.2/sift/sift_reader.cc:353-376 | A routine's record gives back its addresses and its strings as they were sent. |
| SiftTheorems.CodeArrives | eecs583-pjct/sniper-5.2/sift/sift_writer.cc:139-188 | After the code records of an instruction the reader has its code, in page and in variable mode, and both sides still agree. |
| SiftTheorems.StaticFound | eecs583-pjct/sniper-5.2/sift/sift_reader.cc:562-590 | Through the next pointer, the map or a decode, the static instruction found is the code of the traced program at that address. |
| SiftTheorems.ExecuteBack | eecs583-pjct/sniper-5.2/sift/sift_writer.cc:134-258 | An instruction reads back as it was executed, with the same last address on both sides; a simple record says executed. |
| SiftTheorems.TopFails | eecs583-pjct/sniper-5.2/sift/sift_writer.cc:160-188 | In page mode code in the top page is never sent, and reading it fails. |
| SiftTheorems.OtherLength | eecs583-pjct/sniper-5.2/sift/sift_reader.cc:562-590 | An instruction of another length at a cached address is not read as made: through the next pointer the old one comes back, through the map the reader fails. |
| SiftTheorems.FaithfulCall | eecs583-pjct/sniper-5.2/sift/sift_writer.cc:134-280 | A call that meets the conditions is read back as that call and nothing else, and both sides agree again. |
| SiftTheorems.UnfaithfulCall | eecs583-pjct/sniper-5.2/sift/sift_writer.cc:134-280 | A call that does not meet them, or executes an address again with another length, is not read back as it was made, whatever comes after it: the trace read never begins with its event. |
| SiftTheorems.RunExact | eecs583-pjct/sniper-5.2/sift/sift_reader.cc:138-445 | For every run of calls: reading the stream back gives the events of the run, no more and no less, if and only if every call in turn meets the conditions and no address is executed with a length other than before. |
| SiftTheorems.TraceExact | eecs583-pjct/sniper-5.2/sift/sift_reader.cc:138-445 | The same for a whole trace from fresh states, nothing being supposed about lengths. |
| SiftTheorems.LengthsMatter | eecs583-pjct/sniper-5.2/sift/sift_reader.cc:562-590 | Three bytes and then five at one address: either alone comes back, the two do not. |
| SiftTheorems.TranslationArrives | eecs583-pjct/sniper-5.2/sift/sift_reader.cc:691-712 | After an instruction the reader translates its address and those it accessed as the writer's side does. |
| SiftWriter.Writer.Instruction | eecs583-pjct/sniper-5.2/sift/sift_writer.cc:134-258 | The method appends the specified bytes, and leaves the specified state and counters. |
| SiftWriter.Writer.SendPages | eecs583-pjct/sniper-5.2/sift/sift_writer.cc:160-188 | The loop over pages, on addresses of 64 bits and where it ends, sends each page that was not sent before, once. |
| SiftWriterSpec.PageLoopEndsExactly | eecs583-pjct/sniper-5.2/sift/sift_writer.cc:160-188 | For every instruction in page mode: on wrapping addresses the loop over its pages comes to an end if and only if its last byte is not in the top page. |
| SiftWriterSpec.LoopEndsWhere | eecs583-pjct/sniper-5.2/sift/sift_writer.cc:160-188 | The same in terms of the call: it has no end exactly for code that reaches into the top page and not over it, and for an instruction of size 0 at address 0 or above the first byte of the top page. |
| SiftWriterSpec.LoopSkippedExactly | eecs583-pjct/sniper-5.2/sift/sift_writer.cc:160-188 | Its test fails at once, and nothing is sent, exactly for code that goes over the top of the address space. |
| SiftWriterSpec.EndlessLoop | eecs583-pjct/sniper-5.2/sift/sift_writer.cc:160-188 | Four bytes at 256 below the top: an instruction the writer accepts and whose loop has no end. |
| SiftWriter.Writer.SendMappings | eecs583-pjct/sniper-5.2/sift/sift_writer.cc:194-196 | The page of the instruction and of every access gets its translation, once. |
| SiftWriter.Writer.RoutineAnnounce | eecs583-pjct/sniper-5.2/sift/sift_writer.cc:597-616 | The record, field by field. |
| SiftReader.Reader.GetStaticInstruction | eecs583-pjct/sniper-5.2/sift/sift_reader.cc:562-590 | The pointer of the last instruction, the map and the decoder together return what the specification finds, and keep the caches in step. |
| SiftReader.Reader.ReadVariableRecord | eecs583-pjct/sniper-5.2/sift/sift_reader.cc:172-201 | The record is cut at page borders into the pages, new ones being added. |
| SiftReader.Reader.Read | eecs583-pjct/sniper-5.2/sift/sift_reader.cc:138-445 | The loop consumes the records up to the next instruction, calls back in their order, and fails where the specification fails. |
| SiftSession.RequestArrives | eecs583-pjct/sniper-5.2/sift/sift_reader.cc:227-340 | Every kind of request (system call, new thread, join, synchronisation, magic instruction, emulation) reads back, up to its last byte. |
| SiftSession.AnswerArrives | eecs583-pjct/sniper-5.2/sift/sift_writer.cc:333-582 | The response of a request reads back, up to its last byte. |
| SiftSession.AccessArrives | eecs583-pjct/sniper-5.2/sift/sift_writer.cc:618-640 | A memory request reads back while the writer waits for a response. |
| SiftSession.ReplyArrives | eecs583-pjct/sniper-5.2/sift/sift_reader.cc:447-532 | The reply to a memory request reads back. |
| SiftProtocol.StepKeeps | eecs583-pjct/sniper-5.2/sift/sift_writer.cc:282-582 | No step of either side breaks the invariant: what each stream holds is what the other side is to read next, whole records of it. |
| SiftProtocol.ReadPending | eecs583-pjct/sniper-5.2/sift/sift_reader.cc:138-445 | Reading what has been written but not read yet comes to the next request with all instructions before it in order. |
| SiftProtocol.WaitingMoves | eecs583-pjct/sniper-5.2/sift/sift_writer.cc:333-407 | While the writer waits, some side can take a step. |
| SiftProtocol.SessionSafe | eecs583-pjct/sniper-5.2/sift/sift_writer.cc:282-693 | In every run of a session neither side fails; what one side is told is a prefix of what the other did, memory accesses and their results included; when a handler runs, both streams are at a record's end; a waiting writer never deadlocks. |
| SiftProtocol.DeliveryBounded | eecs583-pjct/sniper-5.2/sift/sift_writer.cc:282-693 | In every run, from any state on: the steps that follow are at most the calls not read yet, two, and two for each choice of the program or a handler among them, three where it is a memory access; so between two choices at most the calls not read yet and two. |
| SiftProtocol.RequestServed | eecs583-pjct/sniper-5.2/sift/sift_writer.cc:333-407 | While the writer waits: once nothing that has arrived is left to take, the handler of its request runs, and when that has replied the only step possible gives the writer its answer. |
| Barrier.StepKeeps | eecs583-pjct/sniper-5.2/common/misc/barrier.cc:17-38 | Every step of a thread keeps the invariant of the barrier. |
| Barrier.Safe | eecs583-pjct/sniper-5.2/common/misc/barrier.cc:17-38 | In every run no thread returns from its k-th wait before all have entered theirs, threads are at most one round apart, and the counters stay in range. |
| Barrier.NeverStuck | eecs583-pjct/sniper-5.2/common/misc/barrier.cc:17-38 | In every reachable state some thread can take a step other than a turn of the spin loop. |
| Barrier.EveryoneReturns | eecs583-pjct/sniper-5.2/common/misc/barrier.cc:17-38 | After a bounded number of such steps every thread has returned k times, for every k and every schedule. |
| BarrierInterrupts.InterruptBreaks | eecs583-pjct/sniper-5.2/common/misc/cond.cc:42-47 | For any number of threads above one, a single wait that returns because of a signal lets a thread through although another has not come: the loop meant to restart it compares with a value that syscall never returns. |
| BarrierInterrupts.InterruptedSafeExactly | eecs583-pjct/sniper-5.2/common/misc/cond.cc:42-47 | With waits interrupted at any time, no thread returns too early in any run if and only if the barrier is for one thread. |
| BarrierInterrupts.HarmlessSafe | eecs583-pjct/sniper-5.2/common/misc/cond.cc:42-47 | As long as interruptions come when they are harmless, there is no early return, threads are at most one round apart, and some thread can go on. |
| BarrierInterrupts.HarmlessExactly | eecs583-pjct/sniper-5.2/common/misc/cond.cc:42-47 | In every state so reached and for every sleeper: after interrupting it all runs without another interruption are safe if and only if it is harmless, which means that another thread is still to be woken and the last one has arrived or is about to, or that the futex word is just being set or the wake-up next. |
| Semaphore.StepKeeps | eecs583-pjct/sniper-5.2/common/misc/semaphore.cc:27-75 | Every step of a thread, woken or not, keeps the invariant of the semaphore. |
| Semaphore.NoWakeupLost | eecs583-pjct/sniper-5.2/common/misc/semaphore.cc:27-75 | In every run, with barging threads and spurious returns: the count is the initial value plus posts minus waits and never falls below zero from such a start; while somebody sleeps it does not exceed the awake waiters and the wake-up still owed. |
| Semaphore.SleeperNotStranded | eecs583-pjct/sniper-5.2/common/misc/semaphore.cc:27-75 | While there is a unit and a sleeper, some thread inside the semaphore can step. |
| Semaphore.OneLetThrough | eecs583-pjct/sniper-5.2/common/misc/semaphore.cc:49-75 | With everybody else asleep or outside, a signal or a broadcast lets one wait through and no more, in every continuation without another post. |
| Semaphore.BroadcastExactly | eecs583-pjct/sniper-5.2/common/misc/semaphore.cc:63-75 | In every reachable such state, all that slept when broadcast was called can get through before the next post if and only if it was one thread. |
| Semaphore.BroadcastStrands | eecs583-pjct/sniper-5.2/common/misc/semaphore.cc:63-75 | A run for three threads or more: broadcast wakes two, one finds no unit and sleeps again, and nobody inside can step any more. |
| CircularQueue.Ring.PushAppends | eecs583-pjct/sniper-5.2/common/misc/circular_queue.h:80-87 | What is pushed goes to the end of the contents. |
| CircularQueue.Ring.PopRemovesFirst | eecs583-pjct/sniper-5.2/common/misc/circular_queue.h:108-116 | What is popped is the oldest, and leaves the rest. |
| CircularQueue.Ring.FullAndEmpty | eecs583-pjct/sniper-5.2/common/misc/circular_queue.h:150-162 | Full and empty are told exactly. |
| CircularQueue.Ring.SizeExact | eecs583-pjct/sniper-5.2/common/misc/circular_queue.h:164-169 | size() is right exactly when its 32-bit sum does not wrap around, and always up to 2^31 cells. |
| CircularQueue.SizeWraps | eecs583-pjct/sniper-5.2/common/misc/circular_queue.h:164-169 | With 2^31 + 1 cells, all but one in use, it is wrong. |
| CircularQueue.Queue.PushCircular | eecs583-pjct/sniper-5.2/common/misc/circular_queue.h:89-96 | The oldest element makes room exactly when the queue is full. |
| CircularQueue.Queue.Pop | eecs583-pjct/sniper-5.2/common/misc/circular_queue.h:108-116 | On the array: the element returned was the first, the others stay. |
| CircularQueue.Queue.Push | eecs583-pjct/sniper-5.2/common/misc/circular_queue.h:80-87 | On the array: the element goes to the end, the others stay. |
| MtCircularQueue.StepKeeps | eecs583-pjct/sniper-5.2/common/misc/mt_circular_queue.h:67-127 | Every step of producer or consumer keeps the invariant. |
| MtCircularQueue.Fifo | eecs583-pjct/sniper-5.2/common/misc/mt_circular_queue.h:67-127 | In every run items leave in the order they came, none lost or twice, never more than the capacity inside; a consumer asleep with no signal owed to it means empty, a producer asleep with none owed means full. |
| MtCircularQueue.NeverBothAsleep | eecs583-pjct/sniper-5.2/common/misc/mt_circular_queue.h:41-127 | With room for an item the two are never both asleep, and some side can step unless both are idle or one rightly sleeps. |
| MtCircularQueue.BothSleepExactly | eecs583-pjct/sniper-5.2/common/misc/mt_circular_queue.h:41-63 | A run in which both sleep exists exactly for capacity 0. |
| SetLock.Excludes | eecs583-pjct/sniper-5.2/common/misc/setlock.cc:14-66 | In every run an exclusive holder excludes every other holder, and shared holders are of different cores. |
| SetLock.SharedTogether | eecs583-pjct/sniper-5.2/common/misc/setlock.cc:34-43 | Shared accesses of different cores do not wait for one another. |
| SetLock.DowngradeLikeAcquire | eecs583-pjct/sniper-5.2/common/misc/setlock.cc:60-66 | The mutexes follow from where the threads are: a downgrade leaves the state that acquiring shared leaves. |
| SetLock.WaiterHolds | eecs583-pjct/sniper-5.2/common/misc/setlock.cc:14-43 | In every run a thread about to take a mutex holds exactly those before it, or none when it takes the lock shared. |
| SetLock.NoDeadlock | eecs583-pjct/sniper-5.2/common/misc/setlock.cc:14-66 | In every run, while a thread waits for a mutex some thread can go on. |
| SpinLoopDetector.RunValid | eecs583-pjct/sniper-5.2/common/misc/spin_loop_detector.cc:10-117 | In every run the table has at most 16 entries with distinct addresses and ids, and when it is not empty the mask is exactly the set of their ids. |
| SpinLoopDetector.FirstRevisitExact | eecs583-pjct/sniper-5.2/common/misc/spin_loop_detector.cc:40-117 | The first loop after a clear is reported as spinning at its first revisit exactly when every register has the value it had then, whatever other loops ran in between. |
| SpinLoopDetector.LaterRevisitExact | eecs583-pjct/sniper-5.2/common/misc/spin_loop_detector.cc:40-117 | Any revisit of the first loop after a clear, as long as it stays in the table: it is reported as spinning exactly when every register that a write changed since its last visit has the value it had at its first. |
| SpinLoopDetector.RevisitTrueExactly | eecs583-pjct/sniper-5.2/common/misc/spin_loop_detector.cc:40-117 | The report agrees with whether any register differs from the last visit exactly when the registers written since had at the last visit their first values, or when some written one differs from the first visit and some from the last. |
| SpinLoopDetector.LaterRevisitFooled | eecs583-pjct/sniper-5.2/common/misc/spin_loop_detector.cc:44-58 | The case where it does not: a register that goes 0, 1, 0 is taken for spinning. |
| SpinLoopDetector.Detection.CommitBCT | eecs583-pjct/sniper-5.2/common/misc/spin_loop_detector.cc:10-75 | Table, buffer, mask, next id and report are those specified. |
| FsbPool.Pool.AllocateGood | eecs583-pjct/sniper-5.2/common/misc/FSBAllocator.hh:122-140 | The unit handed out was not live; nothing else changes; the list holds exactly the blocks with room, once each; a block is added only when all are full. |
| FsbPool.Pool.DeallocateGood | eecs583-pjct/sniper-5.2/common/misc/FSBAllocator.hh:142-153 | Exactly the unit given back stops being live, and the list stays exact. |
| FsbPool.RunGood | eecs583-pjct/sniper-5.2/common/misc/FSBAllocator.hh:122-153 | Over every run of allocations and deallocations the pool stays valid, and each unit is live exactly when it was handed out once more than it was given back. |
| FsbAllocator.MemBlock.UnitsDisjoint | eecs583-pjct/sniper-5.2/common/misc/FSBAllocator.hh:80-84 | The words of two units do not overlap, tags included. |
| FsbAllocator.MemBlock.Allocate | eecs583-pjct/sniper-5.2/common/misc/FSBAllocator.hh:69-93 | In memory: the unit returned is the head of the free list threaded through the block or a fresh one, its tag is written, other words stay. |
| FsbAllocator.MemBlock.Deallocate | eecs583-pjct/sniper-5.2/common/misc/FSBAllocator.hh:95-102 | In memory: the unit becomes the head of the free list; a block with no live unit gives its memory back. |
| FsbAllocator.MemBlock.Write | eecs583-pjct/sniper-5.2/common/misc/FSBAllocator.hh:89-90 | A client may write into its unit: the free list and all tags survive. |
| FsbAllocator.ElemAllocator.Allocate | eecs583-pjct/sniper-5.2/common/misc/FSBAllocator.hh:122-140 | The allocator in memory does what the pool does, returns a place where no live unit is, and changes no word of a live unit. |
| FsbAllocator.ElemAllocator.Write | eecs583-pjct/sniper-5.2/common/misc/FSBAllocator.hh:122-153 | A client writing into a live unit leaves the whole allocator as it was: all free lists, all tags, and every other word of every live unit. |
| FsbAllocator.ElemAllocator.Deallocate | eecs583-pjct/sniper-5.2/common/misc/FSBAllocator.hh:142-153 | The tag of a live unit leads to its own block, the allocator does what the pool does, and no word of a unit that stays live changes; null is ignored. |
| JsonRoundTrip.EscapedIs | eecs583-pjct/sniper-5.2/tools/localjson.py:324-336 | The chain of replacements is one substitution, character by character: no replacement touches what an earlier one put in. |
| JsonRoundTrip.CharsBack | eecs583-pjct/sniper-5.2/tools/localjson.py:164-194 | A written string reads back, with or without escaped slashes. |
| JsonRoundTrip.NumberExact | eecs583-pjct/sniper-5.2/tools/localjson.py:143-162 | A written integer reads back, and no more than it, exactly when no digit, point or e follows. |
| JsonRoundTrip.PrintParseExact | eecs583-pjct/sniper-5.2/tools/localjson.py:92-283 | Inside any larger text the parser returns the value written and stops where its text ends: always but for an integer that the text goes on with. |
| JsonRoundTrip.ReadWrite | eecs583-pjct/sniper-5.2/tools/localjson.py:350-354 | read(write(v)) == v for every value of null, booleans, integers, strings, lists and dictionaries, of any depth, with slashes escaped or not. |
| JsonRoundTrip.PrintInjective | eecs583-pjct/sniper-5.2/tools/localjson.py:302-348 | Different values are written differently. |
| JsonIo.JsonReader.Read | eecs583-pjct/sniper-5.2/tools/localjson.py:87-115 | The reader with its moving index returns what the specification of parsing says, fails where it fails, and stops where it stops. |
| JsonIo.JsonReader.ReadNumber | eecs583-pjct/sniper-5.2/tools/localjson.py:143-162 | The loop takes the digits and points, and an exponent by a call of itself; it raises exactly when Python converts the number or its exponent to nothing, and tells integers from floats. |
| JsonRoundTrip.EmptyListExactly | eecs583-pjct/sniper-5.2/tools/localjson.py:236-250 | The empty list is read exactly where the closing bracket follows the opening one at once. |
| JsonRoundTrip.BlankContainerExactly | eecs583-pjct/sniper-5.2/tools/localjson.py:236-274 | Where white space or comments and the closing bracket or brace follow, the container is accepted exactly when there is no such space. |
| JsonIo.JsonReader.ReadString | eecs583-pjct/sniper-5.2/tools/localjson.py:164-194 | The loop takes the characters up to the closing quote, escapes undone. |
| JsonIo.JsonReader.EatWhitespace | eecs583-pjct/sniper-5.2/tools/localjson.py:276-283 | White space and comments of both kinds are skipped. |
| JsonIo.JsonReader.ReadCStyleComment | eecs583-pjct/sniper-5.2/tools/localjson.py:216-226 | Up to the first closing; another opening before it is an error. |
| JsonIo.JsonReader.ReadArray | eecs583-pjct/sniper-5.2/tools/localjson.py:236-250 | Items separated by commas up to the bracket; no comma before it, no blank in an empty array. |
| JsonIo.JsonReader.ReadObject | eecs583-pjct/sniper-5.2/tools/localjson.py:252-274 | Pairs of a string and a value up to the brace; a repeated key keeps its place and takes the last value. |
| JsonIo.JsonWriter.Write | eecs583-pjct/sniper-5.2/tools/localjson.py:296-348 | What the writer puts into its buffer is the specified text. |
| BitVectors.BitVector.Find | eecs583-pjct/sniper-5.2/common/misc/bit_vector.cc:39-108 | find() returns the least set bit above the last one found, or -1, whatever was set or cleared in between, and remembers it. |
| BitVectors.FindsAll | eecs583-pjct/sniper-5.2/common/misc/bit_vector.cc:27-37 | Without updates the calls list every set bit once, ascending, then return -1 and start over. |
| BitVectors.BitVector.Set | eecs583-pjct/sniper-5.2/common/misc/bit_vector.cc:133-146 | Exactly the bit is set, and the size counts the set bits. |
| BitVectors.BitVector.Clear | eecs583-pjct/sniper-5.2/common/misc/bit_vector.cc:148-161 | Exactly the bit is cleared, and the size counts the set bits. |
| BitVectors.BitVector.Reset | eecs583-pjct/sniper-5.2/common/misc/bit_vector.cc:8-15 | All bits are clear, and the search starts over. |
| BitVectors.BitVector.SizeExact | eecs583-pjct/sniper-5.2/common/misc/bit_vector.cc:133-161 | The size is the number of set bits below the capacity. |
| CallTree.Profile.FindRoots | eecs583-pjct/sniper-5.2/tools/gen_profile.py:148-151 | The roots are exactly the calls whose parent is no call. |
| CallTree.Profile.OrderCalls | eecs583-pjct/sniper-5.2/tools/gen_profile.py:153-159 | The worklist ends with every call once, and after all calls it makes. |
| CallTree.Profile.BuildTotal | eecs583-pjct/sniper-5.2/tools/gen_profile.py:35-55 | The total is a call's own counters and the totals of its children; folded children add their counters, but not how often they were called, and hand on their children. |
| CallTree.Profile.BuildTotals | eecs583-pjct/sniper-5.2/tools/gen_profile.py:148-164 | All of that for every call of any forest, and the totals of the profile are the sums over all calls. |
| CallForest.Conserved | eecs583-pjct/sniper-5.2/tools/gen_profile.py:35-55 | In any forest what is gathered upwards is counted once: what is gathered from no call adds up to everything. |
| CallForest.PrintedExactly | eecs583-pjct/sniper-5.2/tools/gen_profile.py:43-53 | After folding, following the children from the roots comes to exactly the roots and the calls that are not folded. |
| CallTree.RootsHaveAll | eecs583-pjct/sniper-5.2/tools/gen_profile.py:148-164 | For every counter the totals of the roots add up to the counters of all calls. |
| CallTree.FoldingLosesNothing | eecs583-pjct/sniper-5.2/tools/gen_profile.py:46-53 | For every counter but calls, the counters of the calls still printed after folding add up to those of all calls before. |
| CallTree.FoldingLosesCalls | eecs583-pjct/sniper-5.2/tools/gen_profile.py:46-53 | For the counter calls, what the printed calls miss is the sum over the calls folded away, so it adds up exactly when that is 0. |
| CallTree.FoldingKeepsCallsExactly | eecs583-pjct/sniper-5.2/tools/gen_profile.py:46-53 | With no negative counters: exactly when no call folded away was counted at all. |
| CallTree.FoldedOnceLost | eecs583-pjct/sniper-5.2/tools/gen_profile.py:46-53 | A call made once by one made once, and folded into it: of two calls one is left. |
| StackItems.Merger.GetItems | eecs583-pjct/sniper-5.2/tools/buildstack.py:8-42 | What is listed and what goes to other add up to the values taken; exactly the keys named are gone; the entries come in the order of the tree, each item at most once, with the values its keys still had. |
| StackItems.ListingDue | eecs583-pjct/sniper-5.2/tools/buildstack.py:8-42 | With collapsing, listed is exactly what is due: a component above its threshold, or a group with nothing above in it, all groups around being above theirs. |
| StackItems.ListingNames | eecs583-pjct/sniper-5.2/tools/buildstack.py:8-42 | Without it all components are listed, in the order of the tree. |
| StackItems.Merger.TakeKeys | eecs583-pjct/sniper-5.2/tools/buildstack.py:27-34 | The values of the keys still there, each once, which are then gone. |
| StackItems.MergeItems | eecs583-pjct/sniper-5.2/tools/buildstack.py:44-55 | For every core and every item tree, thresholds and collapse flag the entries, other included, add up to the values given, and a key named several times counts once. |

## Left out

- Cyclic profiles in `integrate`: the partial ratios within a cycle and the tolerance of their assertion.
- Floating point: call ratios, times and stack values are reals; a well-formed JSON number with a point or an exponent ends the reading with the outcome that it is a float: its value, the overflow an exponent from 309 on raises, and the text after it are not modelled, and neither is printing floats.
- Integrate.Profile: the event of a function or a call is a field of its object; the warnings for calls without a count are not modelled.
- Propagation.ConservedExactly: supposes that losses, of functions whose calls have no count, and gains, of functions whose counted calls were all counted zero times, do not both occur, as they could cancel out; the difference is that of Propagation.LossExactly in any case.
- Prune.PruneBetween: the lookup of root and leaf by name is not modelled, and neither is pruning by thresholds before.
- SIFT streams: opening, the header, compression and the read position; records are bytes in a sequence, and the end of the bytes without an end record is an outcome of its own.
- SIFT reader: the Xed decoder (a static instruction is its address, size and bytes); pages are sequences and not shared buffers, and an unset byte of a page is a parameter.
- SIFT writer: the histograms of sizes and addresses; counters are unbounded; translations for the arguments of futex and write calls.
- SiftProtocol.SessionSafe: instructions and callbacks are such as come back as made (`Faithful`), with one length per address; a system call has data and a memory access is not empty, as the source asserts; what handlers do besides accessing memory and answering is not modelled, and neither is a record of unknown type that reaches a waiting writer.
- SiftTheorems.OtherLength: says what is read, not what a decoder would make of it.
- Barrier.Safe: FUTEX_WAIT returns on a wake-up or a mismatch only; with interrupted waits it is BarrierInterrupts.HarmlessSafe.
- Timeouts of condition variables, and timers around locks.
- MtCircularQueue.Fifo: one producer and one consumer; full_wait, empty_wait and the unlocked variants are not modelled.
- SELock is not modelled: `setlock.h` selects the lock modelled here.
- Spin detector: masks are sets of ids and not bits of a word; the performance model behind the counters is a parameter.
- FsbAllocator.ElemAllocator.Allocate: the upper bound on the number of blocks and a failing `new` are not modelled.
- JsonIo.JsonReader.Read: where the text comes to a well-formed float, reading ends there; see the line on floating point.
- JsonIo.JsonReader.ReadNumber: says that it is a float, not its value or what follows it.
- JsonIo.JsonReader: byte strings are sequences of characters; a `\u` escape beyond ASCII fails as it does in the source's buffer; the generator over a file is not modelled; all exceptions are one outcome.
- JsonText.Put: a dictionary is the sequence of its items, in the order in which they are listed.
- BitVectors: a 64-bit word is the sequence of its bits; positions stay below 2^31.
- CallTree.Profile: a call is a record in the dictionary of calls, as nothing else refers to it; parsing the trace file, names, printing and the callgrind output.
- StackItems.MergeItems: the dictionaries given are not changed; the message about unknown keys.
- Printing, plotting, command lines, databases, instrumentation and the McPAT templates.
