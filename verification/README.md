# Verified models of the linux-c-practice protocols

Dafny models of those programs of the repository in which its own code carries a protocol, a loop
invariant or real arithmetic, and proofs of what they promise. Every statement is about all inputs, all
interleavings or all runs; numbers of threads, permits, descriptors, bytes and turns are arbitrary.

| files | program | what is proved |
|---|---|---|
| `PollSpec`, `PollWorld`, `PollServer` | `poll_socket.c` | every turn of every run serves exactly the connections poll reported, the descriptor table lists exactly the open descriptors in every state, compaction is an order-preserving filter, each send is offered the whole echo, accept runs in one round only, everything is closed once |
| `PipeWiring`, `ForkRun`, `ArgVector` | `fork-pipe-exec.c` | who holds which pipe end, exactly which programs deadlock with the parent and exactly when output is lost, which is a prefix in every interleaving, no block is freed twice, and exactly when blocks are leaked |
| `MutexCounter` | `thread_mutex.c` | the log is unbroken, consecutively numbered blocks; exactly the lock makes the counter right |
| `TimedWait` | `thread_conditionvariable.c` | every set of the flag is accounted for; exactly when "timeout, retry" can be printed without a timeout |
| `Permits` | `thread_sem_detached.c` | permits are conserved, the log nests K deep and K threads can be inside at once, runs stop only when complete |
| `Tokens`, `Tokenizer` | `str_ncpy-casecmp-chr-rchr-fry-tok_r.c` | the nested scans print exactly the maximal runs, and which characters they overwrite |
| `Clock`, `PollTimer` | `time.c`, `poll_timer.c` | exactly which times are displayed right, also before 1970; printed differences add up |
| `AddressSelection` | `socket_tcp.c` | which address is chosen and which sockets stay open |
| `SymbolAddress` | `sigaction.c` | the offset printed by `backtrace_symbols` is parsed back; when the copy stays in its buffer |

`Runs`, `Sequences` and `Options` are shared: runs of a next-state function with their invariants and
bounds, counts and sums over sequences, missing values.

## How the models are built

Programs that change things step by step are methods with loops and, where they share state, classes.
`PollServer.EventLoop` owns a fixed array of 32 slots, and its `Now()` gives the state as a value of
`PollWorld.World`; each method is proved to change that value by an event defined there, and the lemmas
about the events keep the invariant `Sound`. The kernel is the class `PollServer.Kernel`, whose contracts
leave every answer open that POSIX leaves open, and which records what poll reported and what each send was
offered; the loop is verified against the contracts, and no call is
made on a descriptor that is not open because each call requires an open one. `clients`, `chunks` and the
number of turns bound how much can still happen and stand for arbitrary finite runs.

The concurrent programs are next-state functions over one step of one thread or process, and a state is
reachable when some sequence of steps leads to it. Quantities that exist only for the statements (the order
in which threads took the lock, how a sender was woken) are fields of the state that no step tests. Functions
that a method or a step shares with its statement are tied down by index: `MutexCounter.Numbered`,
`Tokens.PrintsRuns`, `PollTimer.ReadingsOf` and `ForkRun.OutputBytes` name none of them.

## Results that contradict the source's comments or a first reading

* The comment above the accept loop (`poll_socket.c:103-107`) says that all queued connections are accepted
  before the next poll. `new_sd` is never reset after accept has failed (line 20 against lines 108-117), so
  this happens in the first round with a readable listener and never again (`EventLoop.Run`);
  `PollServer.ClientIgnored` has a client waiting at a readable listener in vain.
  `AcceptAllAfterReset` is the variant that does what the comment says.
* The close on line 203 of `fork-pipe-exec.c` is needed for end of file, but with the SIGCHLD handler
  installed a parent without it still ends, unless the program waits for stdin: the handler exits
  (`ForkRun.ParentEndsUnlessDeadlock`, `ForkRun.Line203IsNeeded`).
* With the handler, output the parent has not yet read when the child exits can be lost; exactly when is
  `ForkRun.OutputComplete`.
* `dealloc_all` reads through a null `args_dup` when an error is reported before the vector is allocated, that
  is for argc = 1, when pipe fails and when the first calloc fails, provided vasprintf has a buffer for the
  message; without one `exit` comes before `dealloc_all`, and a vector with its words is leaked
  (`ArgVector.Process.SetUp`; `ArgVector.NoArgument` and `ArgVector.NoPipe` are such inputs). It is leaked as
  well when main returns (`ArgVector.Process.Leave`).
* "timeout, retry" (`thread_conditionvariable.c:77`) is printed without a timeout when a wake-up is spurious
  or another sender takes the flag first, since the flag is tested with `if` (`TimedWait.TimeoutIsHonest`).
* The seconds field of `time.c` is wrong from 2^31 seconds on, except for the times named exactly in
  `Clock.ShownRight`; days, hours and minutes stay right. For times of minus one day and before, the days are
  not printed, so no such time is shown right. `Clock.FirstWrongTime` is the first of each kind.
* `getaddr` lets a text through that just fills the buffer; its NUL then falls behind the end
  (`SymbolAddress.GetAddr`; `SymbolAddress.NulPastTheEnd` is such a line).

## Model

| member | source | states |
|---|---|---|
| PollServer.EventLoop.Run | poll_socket.c:83-194 | over any number of turns, with the flags poll reported in each: every completed turn handled exactly the connections reported readable, left the others and those accepted in it untouched, and drained a readable listener if new_sd was not -1; each turn starts where the last one ended; the run goes on until poll or accept fails, or until a 64-byte chunk without NUL makes strlen undefined; after such a failure, through `out`, no descriptor is open and the listener and every accepted connection, otherwise as the last turn left them, were closed exactly once; accept was called in at most one round; once new_sd is -1 no connection is accepted, nfds never grows and the queue never shrinks |
| PollServer.EventLoop.Round | poll_socket.c:84-185 | a turn polls once and, going by what poll reported, reads exactly the connections poll reported, each until recv has no more, closes exactly those that are over, leaves all others and those just accepted untouched, drains a readable listener if accept never failed before, and ends with an exact table without tombstones |
| PollServer.EventLoop.ServeSlots | poll_socket.c:93-174 | every slot poll knew of is handled; accept can only fail while the table holds no tombstone |
| PollServer.EventLoop.AcceptAll | poll_socket.c:103-124 | with new_sd at -1 nothing happens; else connections are appended until accept fails, and a would-block leaves the queue empty |
| PollServer.EventLoop.AcceptAllAfterReset | poll_socket.c:103-124 | with new_sd reset before the loop, every call that does not fail empties the queue |
| PollServer.ClientIgnored | poll_socket.c:108-110 | a concrete state in which the listener is reported readable and the waiting client is not accepted |
| PollServer.EventLoop.ReadAndEcho | poll_socket.c:131-164 | only this connection changes; it is left fully answered and read dry, or it is over with at most one chunk unanswered, or past a 64-byte chunk without NUL |
| PollServer.EventLoop.EchoOne | poll_socket.c:135-163 | for one received chunk send is offered all its text up to the first NUL and one NUL, read through the zeroed 64-byte buffer; what the kernel takes is a prefix of it |
| PollServer.EventLoop.Serve | poll_socket.c:131-173 | a finished connection is closed once and its slot becomes -1, any other keeps its slot |
| PollServer.EventLoop.Compact | poll_socket.c:176-185 | in place and although the body steps back, the live fd values become the order-preserving filter of the values other than -1; events and revents do not move |
| PollServer.EventLoop.RemoveSlot | poll_socket.c:178-183 | the inner loop removes one slot, and the stale slot nfds never becomes live |
| PollServer.EventLoop.CloseAll | poll_socket.c:188-193 | the guard is always true; afterwards nothing is open and every connection was closed exactly once |
| PollSpec.SurvivingDrop | poll_socket.c:178-183 | shifting a tombstone out loses no entry and keeps the order |
| PollSpec.SurvivingLists | poll_socket.c:176-185 | compaction keeps the table exact and free of tombstones |
| PollSpec.ListsBury | poll_socket.c:171-172 | closing a slot's descriptor and marking it keeps the table exact |
| PollWorld.AcceptedSound | poll_socket.c:120-123 | accepting keeps the invariant: table = open descriptors without duplicates, listener in slot 0, echoes faithful |
| PollWorld.DroppedSound | poll_socket.c:166-173 | closing a connection keeps the invariant |
| PollWorld.CompactedSound | poll_socket.c:176-185 | compaction keeps the invariant |
| PollWorld.RoundServes | poll_socket.c:94-174 | serving one slot disturbs neither the slots served before nor those still to come |
| PollWorld.RoundAccepts | poll_socket.c:108-124 | connections accepted during a round are not read in it |
| PollWorld.RoundServed | poll_socket.c:94-185 | when the last slot has been served, the turn as a whole is one that serves, whatever compaction did to the table |
| PollWorld.RoundOnlyAccepted | poll_socket.c:108-118 | when accept fails, the connections of earlier turns are as they were |
| PollWorld.EchoedNext | poll_socket.c:138-163 | each chunk is answered by offering its own whole echo, in order |
| PollWorld.ClosingStep | poll_socket.c:190-193 | what is left in the table is what is left open |
| PollWorld.ClientGetsItsBytes | poll_socket.c:134-164 | when the kernel takes all it is offered, a client gets each answered chunk back followed by one NUL; without the NULs these are its bytes exactly when it sent no NUL; at most one chunk is unanswered, and only if recv ended or a send failed |
| PollSpec.EchoRoundTrip | poll_socket.c:153-158 | dropping NULs from the echo gives back the bytes if and only if no chunk contains a NUL |
| PipeWiring.ChildWired | fork-pipe-exec.c:143-189 | after pipe, pipe and the child's six calls its stdin and stdout are its pipe ends and it holds no other, if and only if descriptor 0 was open at the start |
| PipeWiring.OnlyWriteEnd | fork-pipe-exec.c:165-203 | then the child's descriptor 1 is the only write end of the pipe to the parent |
| PipeWiring.ParentHolds | fork-pipe-exec.c:198-211 | exactly which of the four pipe ends the parent holds after each of its calls; PARENT_WRITE until line 210 |
| PipeWiring.ChildHolds | fork-pipe-exec.c:171-189 | the child never lets go of its way to the parent, and never keeps its own stdin open |
| ForkRun.ParentEndsUnlessDeadlock | fork-pipe-exec.c:165-212 | for every program, pipe size and interleaving: a run that cannot go on has ended the parent if and only if the setting is not one of the named deadlocks |
| ForkRun.SourceTerminates | fork-pipe-exec.c:165-212 | with the source's close and handler, that is if and only if the program does not wait for the end of stdin while its stdout is open |
| ForkRun.DeadlockIsReached | fork-pipe-exec.c:206-210 | every named deadlock is reached: nobody can move and the parent is in its read loop |
| ForkRun.Line203IsNeeded | fork-pipe-exec.c:198-206 | without the handler, for programs that never wait for stdin: the parent ends if and only if it closes CHILD_WRITE, and then has seen end of file and printed everything |
| ForkRun.RunsAreFinite | fork-pipe-exec.c:165-212 | the length of every run is bounded by the length of the program |
| ForkRun.OutputIsPrefix | fork-pipe-exec.c:56-64 | printed, buffered and piped bytes are the bytes written; the output is a prefix even if the handler exits early, and all of it after end of file |
| ForkRun.OutputComplete | fork-pipe-exec.c:106-123 | in a setting without deadlock the whole output is printed in every run if and only if there is no handler, nothing to print, or the program waits for a stdin that the parent closes only after end of file |
| ForkRun.Lose | fork-pipe-exec.c:56-123 | otherwise there is a run in which the handler ends the parent before the last byte is read |
| ForkRun.OnlyPutcharPrints | fork-pipe-exec.c:61-62 | no step but the parent's putchar prints, and it prints the next byte of the stream |
| ForkRun.OutputBytes | fork-pipe-exec.c:56-64 | the output is the bytes written before stdout is closed, each once and in order |
| ForkRun.PipeFits | fork-pipe-exec.c:143-148 | the pipe never holds more than its size, and a writer to a full pipe waits |
| ForkRun.ParentKeepsBytes | fork-pipe-exec.c:61-62 | no refill of the stream and no putchar loses, doubles or reorders a byte |
| ArgVector.Process.SetUp | fork-pipe-exec.c:126-161 | the words are ready exactly when argc >= 2, both pipes are made and all allocations succeed; dealloc_all dereferences null exactly when the message has a buffer and argc = 1, or a pipe or the vector failed; after a failure something is left allocated exactly when there was a vector and the message has no buffer |
| ArgVector.Process.PrintErrorAndExit | fork-pipe-exec.c:36-54 | everything is freed before exit(2), or the missing vector is dereferenced, unless there is no buffer for the message: then exit(1) comes first |
| ArgVector.Process.Leave | fork-pipe-exec.c:106-124 | a process with its vector frees all of it exactly when the handler collected the child, or fork, execvp or waitpid failed with a message; else, as when main returns, all of it is leaked |
| ArgVector.NoArgument | fork-pipe-exec.c:131-133 | argc = 1 ends in the null dereference |
| ArgVector.NoPipe | fork-pipe-exec.c:143-145 | and so does a failed pipe for argc = 2 |
| ArgVector.Process.CopyArgs | fork-pipe-exec.c:150-161 | argc - 1 blocks of their own hold the clipped arguments, a null pointer follows, and the live blocks are exactly the vector and its words at every failure |
| ArgVector.Process.DeallocAll | fork-pipe-exec.c:23-34 | each live block is freed once, unless the vector is null and argc > 0 |
| ArgVector.WordReadsAsClip | fork-pipe-exec.c:156-160 | every word reads as the first 31 characters of its argument, or all of it if it is shorter, and the rest of its block is NUL |
| MutexCounter.FinalLog | thread_mutex.c:2-25 | for N threads and every interleaving: line k + 1 of the counter lines shows k + 1, directly before it stands the data of the k-th thread to take the lock exactly when its argument is not null, there are no other lines, the threads are a permutation, and the counter is N |
| MutexCounter.FinalLogOfData | thread_mutex.c:17-25 | with data for every thread, lines 2k and 2k + 1 are the data of the k-th thread and counter k + 1 |
| MutexCounter.LogIsBlocks | thread_mutex.c:45-67 | in every reachable state the log is a prefix of such lines, although the increment is a load and a store |
| MutexCounter.StopsOnlyAtTheEnd | thread_mutex.c:80-98 | a run stops only when all are joined and every returned buffer was freed once, in order and after its thread returned, or when malloc failed |
| MutexCounter.RunsAreFinite | thread_mutex.c:45-99 | no run has more than 8N + 1 steps |
| MutexCounter.EveryonePrintsN | thread_mutex.c:26-32 | without the lock there is, for every N, a run in which all N threads print N |
| MutexCounter.UpdatesLost | thread_mutex.c:26-32 | and one in which all print 1 and N - 1 updates are lost |
| MutexCounter.LockIsNeeded | thread_mutex.c:45-67 | for N >= 2 the counter is N in all runs if and only if the lock is there |
| TimedWait.SetsConserved | thread_conditionvariable.c:43-48 | always, with spurious wake-ups and timeouts: sets = successes + coalesced sets + 1 if the flag is up |
| TimedWait.FlagUpMeansSuccess | thread_conditionvariable.c:68-74 | in every run on from a state in which a sender has just locked while the flag is up, it never waits, and when it is done it has reported success |
| TimedWait.LastLockDecides | thread_conditionvariable.c:68-80 | in every run on from a state in which a sender found the flag up or has the lock back, it does not wait again and reports what the flag was then |
| TimedWait.TimeoutIsHonest | thread_conditionvariable.c:68-80 | "timeout, retry" is printed only after a timeout in all runs if and only if there is no sender, or no spurious wake-up and at most one sender or no receiver |
| TimedWait.LoneSenderReportsSets | thread_conditionvariable.c:66-80 | in every run on from a state in which a single sender has the lock for the last time, it reports success if and only if a set came before |
| TimedWait.StopsOnlyWhenDone | thread_conditionvariable.c:37-85 | no run stops before every thread has returned |
| TimedWait.RunsAreFinite | thread_conditionvariable.c:37-85 | no run has more than four steps a receiver and seven a sender |
| Permits.PermitsConserved | thread_sem_detached.c:48-66 | permits + threads inside = K, and in every log prefix 0 to K more threads have entered than are exiting |
| Permits.BinaryAlternates | thread_sem_detached.c:8-21 | for K = 1 the lines alternate strictly |
| Permits.ManyEnter | thread_sem_detached.c:23-35 | for every n up to N and K a run puts n threads inside at once, with n "Entered" lines in a row |
| Permits.StopsOnlyWhenComplete | thread_sem_detached.c:48-66 | a run that stops is complete if and only if K > 0 or there is no thread; then it logged N lines of each kind and K is restored |
| Permits.RunsAreFinite | thread_sem_detached.c:48-66 | no run has more than 4N steps |
| Tokenizer.Tokenize | str_ncpy-casecmp-chr-rchr-fry-tok_r.c:51-69 | for every NUL-free string: the printed lines are the maximal space-free runs in order, each followed, if it contains a comma, by its maximal comma-free runs in order, and nothing else; the final buffer is NUL exactly at the delimiter behind each word and piece and unchanged elsewhere |
| Tokenizer.PrintPieces | str_ncpy-casecmp-chr-rchr-fry-tok_r.c:62-67 | the inner scan writes inside the current word only, so the outer scan's save pointer and rest are untouched |
| Tokenizer.StrtokR | str_ncpy-casecmp-chr-rchr-fry-tok_r.c:55-57 | strtok_r as POSIX defines it: the next run is the token, the delimiter behind it becomes NUL, nothing else changes |
| Tokens.SpansAreRuns | str_ncpy-casecmp-chr-rchr-fry-tok_r.c:55-67 | the spans the loops visit are exactly the maximal delimiter-free runs, in increasing order |
| Tokens.LinesAreRuns | str_ncpy-casecmp-chr-rchr-fry-tok_r.c:51-69 | what the scans find from left to right is what maximal runs ask for |
| Tokens.CutsEndRuns | str_ncpy-casecmp-chr-rchr-fry-tok_r.c:55-67 | the overwritten positions are exactly those directly behind a word, and inside a word those directly behind a piece |
| Tokens.OuterCutStep | str_ncpy-casecmp-chr-rchr-fry-tok_r.c:55-69 | one word's writes leave everything behind it as it was |
| Clock.ShownRight | time.c:52-60 | for every time, also negative: the seconds are right if and only if the number of lost multiples of 2^32 is a multiple of 15 and the sign survived or the seconds are 0; all displayed fields make the time up again if and only if it is after minus one day and, from 0 on, that holds |
| Clock.TotalOrSeconds | time.c:57-60 | hours and minutes are right for every time, the days exactly after minus one day; from there on only the seconds can be wrong: with the right ones in their place the fields make up the time |
| Clock.FirstWrongTime | time.c:52-60 | 2^31 seconds show as 24855 days + 3h 14m -8s, and minus one day as 0h 0m 0s |
| Clock.FieldsOrder | time.c:52-60 | for times below 2^31 the fields order lexicographically as the times do |
| Clock.ShownRightUntil2038 | time.c:52-60 | below 2^31 the fields are right and in their ranges |
| PollTimer.Loop | poll_timer.c:41-58 | for any sequence of poll answers the printed values are the differences of successive readings, up to the first failure |
| PollTimer.ReadingsOf | poll_timer.c:41-56 | the readings are what the clock said at each timeout before the first failure, in order |
| PollTimer.SumTelescopes | poll_timer.c:50-56 | whatever the clock does they add up, modulo 2^64, to the seconds from start to last timeout |
| PollTimer.NoErrorAccumulates | poll_timer.c:50-56 | on a monotone clock they add up exactly, and each value and the sum are off by less than a second |
| AddressSelection.Select | socket_tcp.c:151-198 | rp ends at the first IPv6 entry with a socket that is bound or left through the setsockopt break, every earlier one failed socket or bind; exactly its socket is open, and none in the other cases; it ends null exactly when no entry is selected or aborts |
| SymbolAddress.GetAddr | sigaction.c:40-61 | exactly when it copies, refuses, or does something C leaves undefined; the copied text is the one between the last '+' and the last ')', terminated |
| SymbolAddress.NulPastTheEnd | sigaction.c:53-58 | an offset of three characters for a buffer of three |
| SymbolAddress.FieldIsOffset | sigaction.c:49-51 | for any path and function name the offset is found where it was printed if and only if it and the tail have no '+' and the tail no ')' |
| SymbolAddress.PrintParse | sigaction.c:49-58 | parsing gives back the printed offset |

## Left out

- Socket set-up in `poll_socket.c` before the loop, `perror` and `printf`: it only establishes the initial state, which is the constructor's precondition.
- More than 30 clients of `poll_socket.c`: the source has no check on its 32 slots, so room for every client is a precondition of `PollServer.EventLoop.constructor`.
- `recv` on an accepted connection is taken to answer EWOULDBLOCK when there is no data, as the comment at `poll_socket.c:42-48` says it does because the connection inherits FIONBIO from the listener. On systems where accept does not pass that on, as on Linux, recv waits there instead: the run stays in that turn until the client sends or closes, which this model does not describe.
- `POLLIN` reports are not tied to waiting data: the model lets poll report anything, which includes what a real poll reports.
- Concurrent programs are modelled on values, one step at a time, not as methods on shared objects; weaker memory orders than interleaving are not captured.
- MutexCounter.FinalLog: thread creation is not a step of its own; all N threads exist from the start, which allows more interleavings than the source.
- ForkRun.ParentEndsUnlessDeadlock: the child's program writes to stdout, closes it, waits for stdin or exits; it does not fork, and the parent writes nothing to it, as in the source. Stopped and continued children are left out; the handler would end the parent for them as well.
- ForkRun.OutputIsPrefix: counts a byte as printed when it is handed to putchar; the buffering of the parent's own stdout is flushed by exit.
- Wait status decoding, the messages of the handler, and in `ForkRun` a failing fork or execvp.
- The `sleep` calls everywhere, `sem_destroy` in `thread_sem_detached.c`, allocator internals and real time.
- `Clock`: milliseconds and the broken-down local time. Days that are not printed count as 0.
- `socket_tcp.c` after the loop, and `socket_udp.c`, whose loop repeats it.
- `sigaction.c` other than `getaddr`.
- The remaining programs of the repository are single calls into libraries that are not part of it.
