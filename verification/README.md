# Verification model of command-relay-mcp

command-relay-mcp runs commands on remote machines. A Gateway multiplexes RPCs over one WebSocket for each
Agent; an Agent runs processes, buffers their output, records their history and updates itself. This project
models the parts whose correctness depends on ordering across goroutines, connections and files, and proves
what they promise, in Dafny 4.11. `dafny verify dfyconfig.toml` checks all of it.

## How the model is laid out

| files | what they model |
|---|---|
| `RpcMux`, `RpcMuxSafety`, `RpcMuxTheorems`, `RpcMuxDelivery`, `RpcMuxHistory`, `AgentConn`, `Wire`, `Counting` | request multiplexing over any number of sockets, the Agent's request goroutines, the dispatcher |
| `Registry`, `RegistryProtocol`, `RegistryHistory` | the table of online Agents as an object, and the Gateway's handlers interleaved |
| `ProcessLifecycle`, `ProcessHistory`, `Shutdown`, `ShutdownHistory`, `Manager`, `Terminate` | one process from start to `done`, the Agent's shutdown, the process table, ending a process group |
| `RingBuffer`, `CommandOutput`, `LimitedOutput` | bounded buffers against the full stream, paging, the truncation flags |
| `Timestamp`, `Calendar`, `History`, `ExecutionEnd`, `ExecutionHistory` | the fixed-width time stamps, the history table, which executions get their end recorded |
| `Sandbox`, `Scratch` | the setup child and its status pipe, the verdict of command.read, scratch directories |
| `Checksum`, `SelfUpdate` | the checksum gate and the crash points of binary replacement |
| `ReadQuery` | building and reading back the inspection commands and GitHub paths |
| `FrameSize`, `EscapeTrip`, `Utf8Text`, `Base64Trip`, `RequestSize` | JSON escaping, UTF-8 and base64 and their reading back, and the 32 MiB message limit both ways |
| `Decimal`, `Text`, `Bytes`, `Wrappers` | numerals, splitting, bytes and optional values used by the others |

Concurrent protocols are transition systems: a state, a step for each lock region, channel operation or system
call, and theorems over every run, that is, every interleaving of enabled steps. The modules named `...History` state
what a run comes to in terms of the steps that were taken: which calls were asked for and how they ended, who holds an
entry, what a row shows, which output was published. Objects that the code updates in
place are classes whose methods are proved against the same functions the protocols use; the connection object
keeps Go's own representation, a table of channels, and is shown to follow any run of its protocol. Choices the program
does not make (which ready branch a select takes, whether a system call fails, when the transport breaks) are
parameters of the steps or methods, so the theorems hold for all of them.

Hypotheses on the outside world, and where they are stated:

- Fewer than 2^64 calls are made on one connection (`RpcMux.WithinIdSpace`); `RpcMuxTheorems.IdsCollide` shows
  what happens beyond.
- A frame is delivered at most once and in order; a broken transport loses a suffix of the frames in flight
  (`RpcMux.LocalApply`, `RpcMux.Apply`). Both ends speak the protocol.
- Ring buffer capacities are not negative. A negative setting makes the source's slice expression panic.
- Times lie in the years 0000 to 9999 (`Timestamp.End`).
- Process ids, execution ids, scratch directory names and temporary file names are fresh.
- A database statement either takes effect at once or fails without effect.
- System calls of `Terminate` take no time, and its ticker is on time.

Where the code and its comments disagree, the model follows the code:

- internal/backend/process_linux.go:73-74 says that the exit code of a signalled process is unobservable; the code
  reports -1 for it and leaves the code absent only when waiting itself fails (`Sandbox.Exited`).
- internal/selfupdate/apply.go:23-26 says that the binary is taken from the archive's root; the code takes the
  first plain file of that base name in any directory (`SelfUpdate.ExtractBinary`).

Properties that hold only under a condition are stated with the exact condition, and with an input that shows the
failure: `CommandOutput.FlagIsExactWhen` and `CommandOutput.CapacityMustExceedCap` (the truncation flag of a one-shot
command is wrong for ring buffers no larger than the output cap), `LimitedOutput.FlagIsExactWhen` (an empty write into
a full collector raises the flag), `RingBuffer.FlagIsTrueWhen` (a negative offset is reported as truncated where
nothing was dropped), `Sandbox.VerdictIsRightWhen` and `Sandbox.CallerIsToldRightWhen` (a child killed during its own
setup is reported as a command that violated the sandbox), `Scratch.OnlyRunningWhen` (a failed removal leaves its
directory behind), `Terminate.GraceIsHonouredWhen` (a grace that does not fit a duration wraps round),
`FrameSize.FileAnswerFitsWhen` (the size check of file.read does not bound what is read afterwards) and
`RequestSize.SomeIsUndeliverableWhen` (the error answers of process.wait, process.terminate, process.write and
execution.get repeat the id in an envelope longer than the request's; that of process.read always fits).

## Model

| member | source | states |
|---|---|---|
| RpcMuxTheorems.AnswerIsOwn | gateway/agentconn.go:53-91 | In every reachable state, a call that returns an answer returns what the handler run for its own request on its own connection gave, value or error unchanged, and no other handler was ever run for it |
| RpcMuxHistory.AnswerIsWhatTheHandlerGave | agent/dispatch.go:25-44 | The same in terms of the run: for the method the caller asked for, the outcome is that of a handler step of the run |
| RpcMuxHistory.RequestsAreAsked | gateway/agentconn.go:53-58 | The requests of a connection are those its callers asked for, method and parameters unchanged, in order |
| RpcMuxHistory.CallStandsByItsSteps | gateway/agentconn.go:53-105 | A call takes its steps in the order of the code and returns what its exit says: an answer if it took one, the timeout if its context ended, the loss by method, or the failed write |
| RpcMuxHistory.ResultIsKept | gateway/agentconn.go:64-68 | What a call returns is fixed once it returns, through the deferred removal and ever after |
| RpcMuxHistory.LogIsHistory | agent/connection.go:126 | There is one dispatch for each handler that was run, with what it gave |
| RpcMuxHistory.EndsAreFinal | agent/connection.go:108-112 | After a read loop has ended no frame of that socket is accepted or read, and a transport that is down stays down |
| RpcMuxHistory.DownWireStaysEmptier | agent/connection.go:133-140 | On a transport that is down nothing more gets on the wire, in either direction |
| RpcMuxHistory.NewCallIsAnswered | agent/connection.go:73-77 | From any run the Agent can dial again, and a call made then can be answered by the handler of its method, leaving nothing in the table |
| RpcMuxTheorems.ReaderNeverBlocks | gateway/agentconn.go:109-131 | Whenever the read loop is about to send, the channel's one slot is free, and no channel is ever sent to twice |
| RpcMuxTheorems.DispatchedAtMostOnce | agent/connection.go:109-141 | A request is dispatched at most once in a whole run, although ids restart on every connection and goroutines outlive their socket |
| RpcMuxTheorems.PendingIsExact | gateway/agentconn.go:60-68 | `pending` holds exactly the ids of the calls between insertion and deferred removal, each mapped to that call's channel |
| RpcMuxTheorems.LossIsReportedByMethod | gateway/agentconn.go:98-104 | A call ended by connection loss reports execution_unknown exactly for state-changing methods and transport_lost for the others, and only after the read loop has ended |
| RpcMuxTheorems.ClosedCallCanLeave | gateway/agentconn.go:86-104 | Once the read loop has ended, each call in `pending` has a next step of its own, and one past its write can leave at once |
| RpcMuxTheorems.ReachableDrains | gateway/agentconn.go:110 | From any reachable state a closed connection's `pending` is emptied by its own calls, within a bound on the number of steps |
| RpcMuxTheorems.WorkBudget | gateway/agentconn.go:53-105 | In any run without new calls on a connection, its calls take at most as many steps as their remaining work, whatever happens in between |
| RpcMuxDelivery.NoAnswerIsLost | gateway/agentconn.go:86-91 | While a socket is up and none of its goroutines gave up, each call that waits or has returned an answer has exactly one copy of its id: on the wire, with a goroutine, on the wire back, with the reader, in its channel, or returned |
| RpcMuxDelivery.AnswersArrive | gateway/agentconn.go:114-130 | From there the copies can be carried on, by whoever holds them, until every waiting call has its answer, within a bound on the number of steps |
| RpcMuxDelivery.EveryCallCanBeAnswered | agent/connection.go:109-141 | So every such run can be continued to one in which the call is over: it has returned what the handler gave for its own request, and its id is out of the table |
| RpcMuxTheorems.IdsCollide | gateway/agentconn.go:58 | Two calls of a connection share an id exactly when a multiple of 2^64 calls lies between them |
| RpcMuxTheorems.IdsOfReachable | gateway/agentconn.go:58 | Every reachable call carries the numeral of its position among its connection's calls |
| RpcMuxSafety.ReachableInv | gateway/agentconn.go:28-39 | Every reachable state satisfies the invariant on ids, `pending`, the provenance of frames and the two counting laws |
| RpcMuxSafety.StepKeeps | agent/connection.go:73-143 | Each single step of Gateway, transport or Agent keeps that invariant on all sockets |
| RpcMuxSafety.AcceptMovesRequest | agent/connection.go:109-119 | Accepting a frame moves one request from the wire to a goroutine of the same socket and changes no other socket's count |
| RpcMuxSafety.HandleMovesRequest | agent/dispatch.go:25-44 | Dispatching moves one request to the log and creates exactly one reply for it |
| RpcMuxSafety.ReplyMovesToken | agent/connection.go:126-141 | A goroutine's write adds at most its own reply, and only to the socket it was born on |
| RpcMuxSafety.LocalAddsNoReply | gateway/agentconn.go:114-130 | No Gateway step creates a response: one in the reader's hand is sent, kept or dropped |
| RpcMuxSafety.UnwrittenNotAsked | gateway/agentconn.go:74-84 | The id of a call that has not written its request is nowhere on the wire, in a goroutine or in the log |
| Decimal.FormatInjective | gateway/agentconn.go:58 | Different numbers have different decimal texts |
| Decimal.FormatParses | agent/read_query.go:192 | Parsing a formatted number gives it back |
| Decimal.FormatIsDecimal | agent/read_query.go:192 | Ten digits, base ten, most significant first |
| AgentConnObject.AgentConn.Begin | gateway/agentconn.go:58-60 | The atomic increment and the new channel are the step that numbers a call |
| AgentConnObject.AgentConn.InsertChannel | gateway/agentconn.go:61-63 | Storing the call's channel under its id is the insertion step |
| AgentConnObject.AgentConn.Sent | gateway/agentconn.go:74-84 | Only a call whose write succeeded goes on to wait |
| AgentConnObject.AgentConn.Select | gateway/agentconn.go:86-104 | The wait blocks exactly while no branch is ready, takes only a ready one, can take any ready one, and each has its own result |
| AgentConnObject.AgentConn.RemoveChannel | gateway/agentconn.go:64-68 | The deferred deletion takes the id out of the table and leaves the result as it is |
| AgentConnObject.AgentConn.Receive | gateway/agentconn.go:115-123 | A frame that arrives is held by the read loop and touches nothing else |
| AgentConnObject.AgentConn.FindChannel | gateway/agentconn.go:124-126 | The read loop's locked lookup is the lookup step |
| AgentConnObject.AgentConn.HandOver | gateway/agentconn.go:127-129 | The send into the channel's one slot is the delivery step |
| AgentConnObject.Follow | gateway/agentconn.go:53-131 | The object, table of channels and goroutine locals, follows any run of the whole system: it ends up as the run says |
| AgentConnObject.BranchesAgree | gateway/agentconn.go:86-104 | What the object can do next, each branch of the wait and the read loop's send, is what the protocol allows |
| AgentConnObject.ObjectNeverBlocks | gateway/agentconn.go:124-129 | In the object's own terms: the loop only sends into a free slot, and the table holds exactly the channels of the calls between insertion and removal |
| Wire.Dispatch | agent/dispatch.go:25-44 | One response for each request, with its id: the handler's value or error unchanged, an internal error exactly for a value that does not encode, an invalid request for an unknown method |
| Wire.MethodsAreSorted | internal/proto/message.go:39-50 | Every registered method either only looks or counts as changing state, and nothing else does |
| Registry.Registry.Register | gateway/registry.go:29-37 | The newest connection of a device takes the entry, and exactly the one it displaces is closed |
| Registry.Registry.Unregister | gateway/registry.go:47-53 | Only the registered connection itself loses its entry; afterwards it has none |
| Registry.Registry.CloseAll | gateway/registry.go:66-77 | The table is emptied and everything it held is closed |
| Registry.Registry.List | gateway/registry.go:79-87 | One line for each online device, no more |
| Registry.Registry.Get | gateway/registry.go:55-60 | The entry of a device, or none |
| RegistryProtocol.EntriesAreLive | gateway/wsserver.go:50-57 | In every run an entry is a connection of that device between its Register and its Unregister |
| RegistryHistory.RegisteredWereVerified | gateway/wsserver.go:38-51 | In every run a registered connection was let in by a well-formed hello with the right secret, for the device it is filed under |
| RegistryHistory.RefusedNeverEnters | gateway/wsserver.go:38-46 | A connection whose hello failed either test is never registered and in no entry, whatever else happens |
| RegistryHistory.EntryIsNewest | gateway/registry.go:29-53 | In every run a connection holds the entry of a device exactly if it registered for it and since then no other of the device did, it was not torn down, and nobody closed everything |
| RegistryHistory.ClosedExactlyIfDisplaced | gateway/registry.go:29-37 | A registered connection is closed by others, or about to be, exactly if it no longer holds its entry |
| RegistryHistory.HandlerStandsByItsSteps | gateway/wsserver.go:33-57 | A handler stands where its own steps brought it: hello, Register, end of the loop, Unregister |
| RegistryProtocol.DisplacedIsClosed | gateway/registry.go:29-37 | In every run a connection taken out of the table while its handler runs has its close done or pending |
| RegistryProtocol.SuccessorIsNeverEvicted | gateway/registry.go:39-53 | No teardown but a connection's own ever takes its entry away, in any continuation of any run |
| RegistryProtocol.EmptyWhenAllReturned | gateway/wsserver.go:50-57 | Once no handler is between Register and Unregister the table is empty |
| ProcessLifecycle.DoneIsLast | agent/processmgr.go:144-176 | In every run `done` is closed at most once, after exit, after both copiers returned with everything read captured, and with the backend's result published |
| ProcessLifecycle.FinalForever | agent/processmgr.go:43-50 | Once both copiers have returned the output never changes again, and once recorded neither does the result |
| ProcessHistory.PublishedIsHistory | agent/processmgr.go:127-174 | When `done` is closed the published code and flag are those of the one exit of the run, and the output of each stream is everything read from it, in order |
| ProcessHistory.WaiterGoesInOrder | agent/processmgr.go:144-174 | The waiting goroutine takes its six steps in order, each at most once |
| ProcessLifecycle.ExitReachesDone | agent/processmgr.go:145-174 | After the process has exited the Agent's own steps reach `done`, in at most ten of them, even if a descendant keeps the pipes open |
| ProcessLifecycle.ClosedPipesOnlyFinish | agent/processmgr.go:153-163 | Every step of the Agent but reading brings the end closer, and closing the pipes rules reading out |
| ProcessLifecycle.FinishedHasExited | agent/processmgr.go:164-173 | A record that counts as finished belongs to a process that has exited with its output complete |
| Shutdown.ShutdownMissesNone | agent/cmd/main.go:119-130 | At the end of a graceful shutdown every process either manager ever started, on any connection, has exited or had Terminate called on it |
| ShutdownHistory.EveryStartIsSettled | agent/cmd/main.go:119-130 | In terms of the run: for every start by a backend there is an exit or a call of Terminate among the steps |
| ShutdownHistory.EveryRequestHasReturned | agent/connection.go:48-49 | When Run returns, every request ever accepted has been seen to its end |
| ShutdownHistory.UnsettledIsTracked | agent/processmgr.go:178-180 | While the Agent runs, a process that neither exited nor was terminated is in the table of its own manager, except inside its own Start |
| Shutdown.RunWaitsForAll | agent/connection.go:48-49 | Run returns only when no request goroutine is left on any connection there ever was |
| Shutdown.OwnGroupPerRunMisses | agent/connection.go:31-36 | With a wait group for each connection instead, a process could be missed: a run in which one is |
| Shutdown.RunningIsTracked | agent/processmgr.go:178-180 | While the Agent runs, an unsettled process is in its manager's table, except inside its own Start |
| Shutdown.StepKeeps | agent/connection.go:117-141 | Each step of connections, requests, exits, collections and shutdown keeps the wait group equal to the goroutines alive and every unsettled process within reach of what is still to come |
| ManagerObject.Manager.Sweep | agent/processmgr.go:251-261 | One collection removes exactly the records finished longer ago than the limit, so never one of a running process |
| ManagerObject.Manager.TerminateAll | agent/processmgr.go:222-237 | Terminate is called once on each tracked process that has not ended and on no other |
| ManagerObject.ProcessRecord.Publish | agent/processmgr.go:164-174 | Recording the result and closing `done` are the last two steps of the lifecycle |
| ManagerObject.ProcessRecord.Wait | agent/processmgr.go:43-50 | A wait ends exactly when `done` or the context is ready; without a timeout it returns the published code, with one it returns none |
| ManagerObject.Find | agent/handlers_process.go:105-115 | Finds an id in the plain manager first, then in the sandboxed one, and fails exactly when neither has it |
| Terminate.Terminate | internal/backend/process_linux.go:91-112 | For every behaviour of the kernel: SIGTERM at once, a poll at every tick until the group is seen gone, SIGKILL at the deadline otherwise, and the result that goes with it |
| Terminate.GraceIsHonouredWhen | internal/backend/process_linux.go:96 | The timer is set to the grace that was asked for exactly if the product with a millisecond fits 64 bits |
| Terminate.OneMoreIsNone | agent/handlers_process.go:217-220 | One millisecond more than the longest grace that fits is no grace at all: the handler bounds it only from below |
| Terminate.GoneGroupIsNotKilled | internal/backend/process_linux.go:106-109 | The first tick that finds the group gone ends the call with success and without SIGKILL |
| Terminate.ContractMeans | internal/backend/sandbox_linux.go:219-240 | SIGTERM once and first, SIGKILL at most once, last and at the deadline, nothing later; success means the group was seen gone or was sent SIGKILL |
| Terminate.PollsAreBounded | internal/backend/process_linux.go:97-111 | At most one poll every 20 ms of the grace period |
| RingBuffer.RingBuffer.Write | agent/ringbuffer.go:20-29 | The buffer holds exactly the newest bytes that fit, and every write takes everything |
| RingBuffer.RingBuffer.ReadFrom | agent/ringbuffer.go:38-57 | A read returns the page of the full stream its offset and size denote |
| RingBuffer.RingBuffer.Len | agent/ringbuffer.go:32-36 | The number of bytes ever written |
| RingBuffer.PageIsExact | agent/ringbuffer.go:38-57 | From any offset, every byte up to the next offset is returned or was dropped, the page is as long as its limit and the stream allow, and the flag says whether it starts later than requested |
| RingBuffer.PagingLosesOnlyGaps | agent/handlers_process.go:148-173 | The pages of a client that starts anywhere and follows the next offsets, with any writes in between and any page sizes, concatenate to the stream minus exactly the flagged gaps |
| RingBuffer.PageAdvances | agent/ringbuffer.go:49-56 | While data is left, a read moves the offset forward |
| RingBuffer.Drain | agent/handlers_process.go:165-167 | Once writers have stopped, paging reaches the end and yields everything still held |
| RingBuffer.FlagIsTrueWhen | agent/ringbuffer.go:42-48 | The flag is up exactly when a byte that was asked for had been dropped, if and only if the offset is not negative or something was dropped |
| RingBuffer.NegativeOffsetMisreports | agent/ringbuffer.go:42-48 | Offset -1 on an empty stream is reported as truncated |
| CommandOutput.TakeOutput | agent/handlers_command.go:127-134 | The tail of the handler returns the first page and the flag as specified, with writes between the read and the length |
| CommandOutput.FlagIsExactWhen | agent/handlers_command.go:127-134 | The truncation flag is exact if and only if the buffer exceeds the cap, the stream fits the buffer, or more is written after the read |
| CommandOutput.CapacityMustExceedCap | internal/proto/message.go:78-81 | The flag is exact for all streams if and only if the capacity exceeds the cap |
| CommandOutput.ClampMaxBytes | agent/handlers_process.go:148-153 | Page sizes lie between one and the cap; acceptable requests are honoured, others get the cap |
| LimitedOutput.LimitedOutput.Write | agent/read_query.go:335-347 | After any writes the collector holds exactly the first bytes up to the limit, and each write reports full acceptance |
| LimitedOutput.FlagIsExact | agent/read_query.go:336-346 | For non-empty writes, which is all a pipe delivers, the flag is up exactly when the output is incomplete |
| LimitedOutput.FlagIsExactWhen | agent/read_query.go:336-346 | In general exactly if something was cut off or no empty write reached a collector filled to the brim |
| LimitedOutput.EmptyWriteAtTheBrim | agent/read_query.go:337-340 | A collector of any size that such a write makes report a loss it did not have |
| Timestamp.FormatOrder | agent/history.go:66-72 | For years 0000 to 9999 byte order of the texts is chronological order |
| Timestamp.ParseInvertsFormat | agent/history.go:189-199 | A text parses to an instant if and only if it is that instant's formatting |
| Timestamp.ReadingDenotes | agent/history.go:101 | Splitting an instant into calendar fields and recombining them is the identity |
| Timestamp.InstantOrder | agent/history.go:66-72 | Valid calendar readings and instants correspond one to one and in order |
| Calendar.YearStartIs | agent/history.go:66-72 | Years have 365 days and one more for each multiple of 4 that is not one of 100 unless it is one of 400 |
| Calendar.FourHundredYears | agent/history.go:66-72 | The calendar repeats every 146,097 days |
| Calendar.EpochIs | agent/history.go:101 | The Unix epoch is 62,167,219,200 seconds after the start of year 0 |
| Calendar.MillenniumDay | agent/history.go:66-72 | The leap day of 2000 and the first of March after it have their known day numbers |
| Calendar.CenturyDay | agent/history.go:66-72 | Century years that are no multiple of 400 have no leap day |
| Calendar.LayoutIs | agent/history.go:72 | The text of one instant, letter by letter |
| Timestamp.TrimmedTextReversesOrder | agent/history.go:66-70 | With a variable-width fraction a whole second would sort after every later instant of that second |
| History.HistoryStore.RecordStart | agent/history.go:95-105 | Inserts the start row, or fails and changes nothing, also when the id is taken |
| History.HistoryStore.RecordEnd | agent/history.go:130-145 | Only busy outcomes are retried, at most three times; the row is ended exactly when the deciding attempt is applied |
| History.BusyCodes | agent/history.go:125-128 | Exactly the codes a multiple of 256 above 5 are retried: SQLITE_BUSY and its extended codes, and no other condition |
| History.HistoryStore.PurgeOlderThan | agent/history.go:211-214 | Applies the purge or changes nothing |
| History.HistoryStore.Get | agent/history.go:147-152 | Every row can be read back |
| History.RecordedIsRead | agent/history.go:178-208 | What was recorded at start and end is what is read, exact to the nanosecond |
| History.PurgeIsByTime | agent/history.go:211-214 | A purge deletes exactly the executions that started before the cutoff |
| History.HistoryStore.List | agent/history.go:154-173 | The most recent executions, as many as the limit allows, newest first and as recorded, or nothing if reading fails anywhere |
| History.ListingIsMostRecent | agent/history.go:154-157 | Ordering by the stored text delivers the most recent executions in order of time: nothing left out is newer than anything listed |
| History.ListingExists | agent/history.go:157 | Every table has such an ordering for every limit, a negative one included |
| ExecutionEnd.EndIsRecordedOnce | agent/handlers_command.go:107-125 | In every run an execution's end is recorded at most once, after its start, after its process exited, with the published code |
| ExecutionEnd.ExitIsRecorded | agent/handlers_process.go:139-144 | If the process finishes while the Agent lives, the end is recorded exactly once, on every path, and the row, if there is one, shows the code it exited with |
| ExecutionEnd.EndedRowHasExited | agent/handlers_command.go:146-153 | A row that shows an end belongs to a process that exited with that code |
| ExecutionEnd.PurgedStaysGone | agent/history.go:210-214 | A purged row never reappears in any continuation |
| ExecutionHistory.RowsAreHistory | agent/history.go:95-145 | In every run an execution has a row exactly if storing its start took effect and no later purge named it; the row is open until recording its end took effect, and then shows the code the process exited with |
| ExecutionHistory.ExecsAreHistory | agent/handlers_command.go:107-153 | In every run the executions are those launched, each with its own process, and each handler stands where its steps brought it: in time, timed out and observed later, or observed in the background |
| Sandbox.LandlockExec | agent/cmd/main.go:153-196 | The setup program performs exactly the modelled acts, in order: the status descriptor is marked close-on-exec first, and every failure reports before it exits |
| Sandbox.ExecutedIsNeverSetupFailure | internal/backend/sandbox_linux.go:185-206 | An executed command is never taken for a setup failure, whatever its exit code and whatever it writes to descriptor 3 |
| Sandbox.UnmarkedIsMisjudgedWhen | agent/cmd/main.go:155 | Without the close-on-exec mark an executed command would be taken for one exactly if it wrote anything to descriptor 3 |
| Sandbox.VerdictIsRightWhen | internal/backend/sandbox_linux.go:190-194 | Setup is reported to have failed exactly when the command never ran, if and only if the child got as far as the exec or the report |
| Sandbox.KilledEarlyIsNeither | internal/backend/sandbox_linux.go:188-205 | A child killed before that shows as an exit with code -1 |
| Sandbox.ExecutedIsRestricted | agent/cmd/main.go:173-195 | The command only ever runs after the home was prepared, the ruleset applied and the program found |
| Sandbox.CallerIsToldRightWhen | agent/handlers_command.go:201-218 | For every child, killed or not: the caller is told right exactly under the same condition; a command that ran is reported with its code, and one killed before it ran as a violation with code -1 |
| Sandbox.KilledChildIsMisreported | agent/handlers_command.go:215 | A child killed while it restricts itself, whose caller hears of a violation by a command that never ran |
| Scratch.SandboxedBackend.Start | internal/backend/sandbox_linux.go:68-169 | A start is the steps of making a directory and then either taking off or removing it, whatever failed |
| Scratch.SandboxedBackend.Wait | internal/backend/sandbox_linux.go:185-206 | The wait returns the verdict of the pipe and removes the handle's directory |
| Scratch.DirectoriesAreOwned | internal/backend/sandbox_linux.go:69-169 | With starts and waits interleaved in any way, the directories on disk are those of starts in progress, of handles not yet waited on, and of failed removals, each belonging to one only |
| Scratch.OnlyRunningWhen | internal/backend/sandbox_linux.go:198-200 | They are exactly those of handles not yet waited on if and only if no start is in progress and no removal failed |
| Scratch.RestAreFailures | internal/backend/sandbox_linux.go:198-200 | Once all starts are over and all handles waited on, as many directories are left as removals failed |
| Scratch.HandlesAreHistory | internal/backend/sandbox_linux.go:158-169 | A handle waits to be waited on exactly if the last step about it was its child taking off, with the directory made for it |
| Checksum.FirstEntryDecides | internal/selfupdate/checksum.go:17-26 | The first line with two fields naming the asset decides alone |
| Checksum.EntryIs | internal/selfupdate/checksum.go:18-20 | A line is an entry for a name exactly if it is two words, the second of them the name, and space |
| Checksum.NoEntryMeansNone | internal/selfupdate/checksum.go:27 | A missing entry is reported exactly when no line is one |
| Checksum.VerifyReadsRender | internal/selfupdate/checksum.go:10-28 | On a file in the release tool's format, exactly the digest listed first for the asset is accepted |
| SelfUpdate.ReplaceBinary | internal/selfupdate/apply.go:58-81 | At every crash point the destination holds the whole old or the whole new executable file and no other path but the temporary one has changed; no temporary file survives if removal succeeds |
| SelfUpdate.ExtractBinary | internal/selfupdate/apply.go:27-51 | The first plain file of the wanted base name in the archive, refused if too large or unreadable |
| SelfUpdate.BaseIs | internal/selfupdate/apply.go:45 | The base of a path is its last name, whatever directories stand before it and slashes after it |
| SelfUpdate.BaseExists | internal/selfupdate/apply.go:45 | Every path but the empty one and those of slashes alone has one |
| SelfUpdate.ApplyUpdate | internal/selfupdate/apply.go:120-170 | The destination changes, at any crash point, only to the whole binary of an archive whose own digest the checksum file accepts |
| ReadQuery.CommandDeterminesQuery | agent/read_query.go:156-273 | A command is built exactly for acceptable parameters, and the query with all its selectors is recovered by a decoder that demands every fixed word in its place, with numbers in bounds |
| ReadQuery.SelectorsHaveTheirOptions | agent/read_query.go:166-269 | In every command each selector is the word after its own option |
| ReadQuery.OnlyInspections | agent/read_query.go:156-273 | Whatever the parameters, only one of twelve inspections is run; git without locks, monitor, pager, external diff, text conversion or signature check |
| ReadQuery.NamesAreHarmless | agent/read_query.go:52-57 | No accepted name can be taken for an option or holds more than letters, digits and a few marks |
| ReadQuery.GitTextsAreChecked | agent/read_query.go:160-168 | Paths are bounded and hold no NUL, and git is only run in the directory asked for |
| ReadQuery.SameCommandSameQuery | agent/read_query.go:156-273 | Two requests that run the same command asked the same thing |
| ReadQuery.PathDeterminesQuery | agent/read_query.go:401-419 | A GitHub path is built exactly for acceptable parameters, and the query is recovered from it |
| ReadQuery.PathLeadsNowhereElse | agent/read_query.go:401-419 | The parts of a path are the fixed ones, owner, repository and number, none of them empty, `.` or `..` |
| ReadQuery.DiffDecodes | agent/read_query.go:172-183 | Staged diffs and pathspecs are told apart, a pathspec equal to `--cached` included |
| ReadQuery.BoundedInteger | agent/read_query.go:275-283 | Zero and the values up to the maximum are accepted, and the result is within bounds |
| ReadQuery.EscapeKeeps | agent/read_query.go:405 | Percent-encoding changes no accepted owner or repository name |
| FrameSize.EscapeAtMostSixfold | internal/proto/message.go:70-76 | JSON escaping makes at most six bytes of one |
| FrameSize.SixfoldIsReached | internal/proto/message.go:73-75 | Control characters take all six |
| FrameSize.ExecAnswerFits | internal/proto/message.go:78-81 | The answer of command.exec and command.read fits one frame for all streams and every request number of the Gateway |
| FrameSize.PageAnswerFits | agent/handlers_process.go:165-173 | So does every successful page of process.read |
| FrameSize.CapIsSafeWhen | internal/proto/message.go:78-81 | One-shot answers fit for all outputs, processes and request numbers if and only if the cap is at most 2,796,178 bytes |
| FrameSize.FileAnswerFits | agent/handlers_fs.go:81-88 | A file still within the limit when it is read fits |
| FrameSize.FileAnswerFitsWhen | agent/handlers_fs.go:77-88 | The exact size of the data read at which the answer of file.read stops fitting |
| FrameSize.GrownFileDoesNotFit | agent/handlers_fs.go:77-88 | A file that grows after its size was checked can exceed the limit |
| EscapeTrip.EscapeReadsBack | internal/proto/message.go:115-125 | Reading back an encoded string gives the string, byte for byte if it is valid UTF-8, and otherwise with the invalid bytes replaced |
| EscapeTrip.EscapeHasNoMarkup | internal/proto/message.go:115-125 | An encoded string holds no `<`, `>` or `&` |
| Utf8Text.IsUtf8Means | internal/proto/message.go:73-75 | A string counts as valid exactly if it is the UTF-8 encoding of code points that are no surrogates |
| EscapeTrip.ArrivesNoLonger | agent/handlers_process.go:161-164 | Encoding again what arrived takes no more room than what was sent |
| RequestSize.ReadIsAlwaysAnswered | agent/handlers_process.go:156-164 | For any id, a request of process.read that the Agent's read limit lets in has a not-found answer that fits |
| RequestSize.UndeliverableWhen | agent/connection.go:79 | For any method that repeats an id, the exact sizes at which the request gets in and the answer does not get out |
| RequestSize.SomeIsUndeliverableWhen | agent/connection.go:79 | There are such ids exactly if the method's request envelope is shorter than its answer's |
| RequestSize.OthersAreNot | agent/handlers_execution.go:65-68 | process.wait, process.terminate, process.write and execution.get have such ids |
| RequestSize.WaitIsUndeliverableWhen | agent/handlers_process.go:194-202 | For process.wait and process.terminate exactly with the number left out or short |
| RequestSize.WriteIsUndeliverableWhen | agent/handlers_process.go:177-185 | For process.write exactly with data of at most ten bytes when encoded |
| FrameSize.Base64Length | agent/handlers_fs.go:88 | Four letters for every three bytes begun |
| Base64Trip.Base64ReadsBack | agent/handlers_fs.go:88 | Decoding gives back the file |

## Left out

- WebSocket, HTTP, MCP, SQLite and Landlock internals: library code, present only through the contracts above.
- Malformed frames, which both ends skip: the peers of the model speak the protocol.
- Keepalive pings and the reconnect backoff: real-time behaviour; a failing ping is one of the ways a transport breaks.
- A write failure in `Call`: it returns the raw transport error, so nothing is claimed about its error code.
- gateway/mcptools.go, gateway/read_query_tools.go, configuration, logging, version strings, release download: field copying and I/O.
- The other filesystem handlers: thin wrappers over the operating system.
- Error texts of read.query, and the parsing and printing of durations and journal times: they enter as functions of the environment.
- Timeout clamping and the process list: one-branch facts.
- UTF-8 boundaries at page edges: streams are bytes throughout.
- Overflow of 64-bit offsets: a stream would have to exceed 2^63 bytes, and page sizes are clamped before use.
- Error answers that carry operating-system or parser messages: nothing in the code bounds their length.
- Frame sizes of the successful answers of execution.get, execution.list, process.list and file.list: they repeat stored commands, or lists the code does not cap.
- Durability of binary replacement across power loss: the code only orders steps a process can see.
- Shutdown.ShutdownMissesNone: says that Terminate is called, not that the operating system ends the group.
- Sandbox.UnmarkedIsMisjudgedWhen: says what would be in the pipe, not that a descendant holding it open would also block the wait.
- Timestamp.ParseInvertsFormat: covers texts in the store's own layout, not everything the library's parser accepts.
- Checksum.IsSpace: covers the white space of ASCII and Latin-1.
