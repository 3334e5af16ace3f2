# Verified model of the code-sharing server

A Dafny 4.11 model of the server's most intricate behaviour, with proofs about whole runs. `dafny verify dfyconfig.toml` checks all of it.

The model has four parts.

**Admission control and quotas.** `OperationLimiter` is the first-in-first-out limiter for slow dependencies, `CircuitBreaker` the breaker around them, `ReliabilityStore`, `DailyQuota` and `Stores` the two rate-limit stores. Each object of the source is a class whose methods are proved equal to functions on values; the results about whole runs are lemmas about those functions: order and exact waiting time, conservation, tight window bounds, and the refinement between the memory store and the Redis store.

**Rooms as interleaved step machines.** Node runs the code between two `await`s in one piece. `RoomProtocol`, `RoomManager` and `ExecutionLedger` therefore model each handler as a program counter whose steps are the code between awaits, with timers as steps of the environment. A run is any sequence of such steps, so a statement about every run is a statement about every interleaving. `RoomProtocol` is one room with joins, reconnects, disconnects, grace timers, hint consent and problem switches, with the consistency of its members and their grace timers in `RoomSlots`, and `RoomHistory` what holds in every run of it and `RoomEffects` what each event makes of it; `RoomManager` is any number of such rooms with their shared documents and the idle sweep; `ExecutionLedger` is any number of executions in any number of rooms, with the limiter and the daily quota of the first part inside; `LedgerHistory` is what holds in every run of it, and `ExecutionOutcomes` says exactly when an execution is charged. `RoomHandlers` and `ExecutionHandler` are the handlers as the source writes them, methods that change one `Room` object in place, each proved equal to the step or to the change of the room that the results are about. `LateJoins` settles exactly when a socket that is gone can still be given a slot. Assumed: ids, tokens and timer handles are never repeated, room codes are fresh, a socket has at most one join in flight, and the middleware of an event and the first segment of its handler are one step.

**The execution result pipeline.** `BoundedOutput` is the harness: bounded capture of output in each child and in the parent, and the loop over the children; `ChildReports` goes from what the children did to the reports. `MarkerFrames` is the frame the harness prints and the server's two searches for its markers, `Grading` the index check and the reports. `ExecutionPipeline` puts them together: from what the children did to what the report says.

**Two text scanners.** `InputParser` is the importer's reader of example inputs, `JsonText` a printer of JSON values (escapes of section 7 of RFC 8259), and `PrintedValues`, `PrintInjective` and `InputRoundTrip` prove what reading makes of every printed input, `WrittenInputs` what it makes of inputs written by hand. `StreamReader` is the reader of streamed completions, proved independent of how the stream is cut; `StreamCompletion` puts it behind the circuit breaker. `Text` holds the string operations of the host languages, `Common` what several modules share.

What the proofs brought out about the code:

- A success that arrives while the circuit is half-open closes it even when the call was admitted before the circuit opened and a real trial is still in flight; this can happen exactly when such a call is in flight as the timer fires (`ClosedByAStaleSuccess`, `StaleSuccessCloses`).
- The breaker records how a streamed request went when the response arrives. It differs from a breaker around the whole stream exactly when an admitted request is answered with a broken body: one whose first complete line that stops the reading is invalid, or that has no such line and ends in a failing read. Any number of them leaves it closed, so an upstream that loses every connection after its response never opens the circuit (`RecordsAlikeExactlyWhen`, `BrokenStreamsGoUnnoticed`, `LostConnectionsGoUnnoticed`). The comment at apps/server/src/clients/GroqClient.ts:81-85 says that the breaker wraps the entire stream; the model follows the code.
- A socket that disconnects while its join awaits the rate limit can still be seated afterwards, exactly when it had a join in flight; as it cannot disconnect again, the slot and the room then outlast every idle sweep (`GoneExactlyWithoutAJoin`, `SeatedUntilItDisconnects`, `JoinOutlivesItsSocket`).
- On a call that opens a window the two stores answer alike exactly for limits of at least 1 (`OpeningCallsAlike`). The server's configuration admits positive limits only (apps/server/src/config.ts:34-39), so no other limit reaches them.
- A denied daily reservation tells the client to wait until the next UTC day with the memory store and a whole day longer with Redis, whose answer is the time its key has left (`RedisNamesADayTooMany`).
- The importer keeps the escapes of a top-level string, refuses a top-level number with an exponent and turns white space inside strings into single blanks (`RoundTripExactly`; one input for each is `QuoteDoesNotComeBack`, `ExponentDoesNotComeBack` and `BlanksDoNotComeBack`), and never reports a missing parameter whose name every object inherits (`MissingIsReported`, `InheritedNamesPass`).
- Every line of a stream is read exactly when the reading stops at a line that a newline ends, or what follows the last newline means nothing (`LastLineReadExactlyWhen`, `LostContent`).

## Model

| member | source | states |
|---|---|---|
| OperationLimiter.FifoAndConservation | apps/server/src/lib/operationLimiter.ts:45-92 | In every run capacity and queue bounds hold, no slot is free while work waits, started followed by queued is acceptance order, and accepted = settled + active + queued as multisets and as numbers |
| OperationLimiter.RejectedExactlyWhenFull | apps/server/src/lib/operationLimiter.ts:46-52 | After any run a submission is rejected if and only if maxInFlight + maxQueue operations are outstanding |
| OperationLimiter.ExactWait | apps/server/src/lib/operationLimiter.ts:54-91 | The operation at queue position k has started after any continuation if and only if more than k operations have settled since |
| OperationLimiter.OutcomeExactly | apps/server/src/lib/operationLimiter.ts:45-61 | After any run a submission starts at once if and only if a slot is free; otherwise it goes to the end of the queue or is turned away |
| OperationLimiter.ThrowingWorkHoldsNoSlot | apps/server/src/lib/operationLimiter.ts:73-81 | In every run work that throws before its first await has settled as often as it has started |
| OperationLimiter.DrainedIdempotent | apps/server/src/lib/operationLimiter.ts:73-91 | The nested drain of work that throws synchronously leaves nothing for the outer one to do differently |
| OperationLimiter.RunKeeps | apps/server/src/lib/operationLimiter.ts:45-92 | From any consistent state every run keeps the invariants and only extends the history |
| OperationLimiter.Create | apps/server/src/lib/operationLimiter.ts:36-43 | A limiter is made exactly for valid options, and starts empty |
| OperationLimiter.OperationLimiter.Run | apps/server/src/lib/operationLimiter.ts:45-61 | New fields, history and outcome are those of the specification |
| OperationLimiter.OperationLimiter.Execute | apps/server/src/lib/operationLimiter.ts:73-81 | Starting work, including work that throws before its first await, is the specified step |
| OperationLimiter.OperationLimiter.AfterWork | apps/server/src/lib/operationLimiter.ts:77-80 | The `finally` block frees a slot and drains |
| OperationLimiter.OperationLimiter.Drain | apps/server/src/lib/operationLimiter.ts:83-91 | Terminates although it is re-entered, and equals the flat loop |
| CircuitBreaker.EveryRun | apps/server/src/lib/circuitBreaker.ts:25-94 | In every run a timer is pending exactly when open, closed implies fewer failures than the threshold, and the counter is the number of failures since the last success or reset |
| CircuitBreaker.OpensExactlyAtThreshold | apps/server/src/lib/circuitBreaker.ts:47-60 | A closed circuit opens exactly on the failure that completes threshold failures in a row (a threshold below 1 behaves as 1) |
| CircuitBreaker.TrialDecides | apps/server/src/lib/circuitBreaker.ts:40-60 | In every reachable half-open state an event opens the circuit if and only if it is the failure of a call in flight, and then for a full period; it closes it if and only if it is a success of one or a reset |
| CircuitBreaker.LeavesOpenExactly | apps/server/src/lib/circuitBreaker.ts:32-38 | An open circuit becomes half-open exactly when its timer is due and fires, closes exactly on a reset, and keeps its due time otherwise |
| CircuitBreaker.ClosedOpensForAPeriod | apps/server/src/lib/circuitBreaker.ts:57-60 | A closed circuit never becomes half-open, and when it opens the timer is due a full period later |
| CircuitBreaker.CountsExactly | apps/server/src/lib/circuitBreaker.ts:40-48 | A failure counts once in every state, a success or a reset starts again, and nothing else touches the count |
| CircuitBreaker.InFlightExactly | apps/server/src/lib/circuitBreaker.ts:63-81 | A call is in flight from its admission, which only an open circuit refuses, to its completion |
| CircuitBreaker.OpenPeriod | apps/server/src/lib/circuitBreaker.ts:32-60 | Whatever completions arrive, an open period without reset ends exactly resetTimeoutMs after the opening failure |
| CircuitBreaker.ClosedByAStaleSuccess | apps/server/src/lib/circuitBreaker.ts:40-45 | After an open period some continuation closes the circuit by a call begun before it opened if and only if such a call is in flight at the firing, and every half-open success of one closes it, whatever trials are in flight |
| CircuitBreaker.StaleSuccessCloses | apps/server/src/lib/circuitBreaker.ts:40-45 | A concrete run in which a stale success closes the circuit with its only trial still in flight |
| CircuitBreaker.StreakIsATailOfFailures | apps/server/src/lib/circuitBreaker.ts:47-60 | The counter measures the longest run of failures at the end of the history |
| CircuitBreaker.CircuitBreaker.Transition | apps/server/src/lib/circuitBreaker.ts:25-30 | Notifications form a chain without non-changes that ends in the present state |
| CircuitBreaker.CircuitBreaker.ScheduleHalfOpen | apps/server/src/lib/circuitBreaker.ts:32-38 | One timer, due resetTimeoutMs from now |
| CircuitBreaker.CircuitBreaker.OnSuccess | apps/server/src/lib/circuitBreaker.ts:40-45 | The new state is the specified one and the notification chain is kept |
| CircuitBreaker.CircuitBreaker.OnFailure | apps/server/src/lib/circuitBreaker.ts:47-60 | The new state is the specified one and the notification chain is kept |
| CircuitBreaker.CircuitBreaker.OnTimer | apps/server/src/lib/circuitBreaker.ts:34-37 | The timer's callback is the run's next state: half-open, without a timer |
| CircuitBreaker.CircuitBreaker.Execute | apps/server/src/lib/circuitBreaker.ts:63-71 | A call turned away leaves no trace and is turned away only while a timer is pending; an admitted one is in flight; the new state is the run's next one |
| CircuitBreaker.CircuitBreaker.AfterCall | apps/server/src/lib/circuitBreaker.ts:73-81 | A completed call leaves the set in flight and counts as a success or a failure, in the run's next state |
| CircuitBreaker.CircuitBreaker.ResetBreaker | apps/server/src/lib/circuitBreaker.ts:87-94 | Reset restores the initial variables, keeps the calls in flight and the notification chain |
| ReliabilityStore.MsUntilNextUtcDay | apps/server/src/lib/reliabilityStore.ts:73-81 | The least positive time after which the next UTC day has begun |
| ReliabilityStore.RetryAfterSeconds | apps/server/src/lib/reliabilityStore.ts:83-85 | The least number of seconds, at least one, that covers the wait |
| ReliabilityStore.MemoryWindowBound | apps/server/src/lib/reliabilityStore.ts:93-115 | Over every run with any other keys mixed in, an interval of one window length holds at most 2L-1 allowed calls of a key |
| ReliabilityStore.MemoryWindowBoundTight | apps/server/src/lib/reliabilityStore.ts:93-115 | For every L and every window of at least two milliseconds a run reaches 2L-1 |
| ReliabilityStore.RedisWindowBound | apps/server/src/lib/reliabilityStore.ts:184-229 | The clock-aligned Redis form admits at most 2L |
| ReliabilityStore.RedisWindowBoundTight | apps/server/src/lib/reliabilityStore.ts:184-229 | For every L a run reaches 2L |
| ReliabilityStore.OpeningCallsAlike | apps/server/src/lib/reliabilityStore.ts:98-104 | On a call that finds no live window the stores answer alike if and only if the limit is at least 1 |
| ReliabilityStore.DenialNamesTheWait | apps/server/src/lib/reliabilityStore.ts:106-111 | A denial changes nothing; after the wait it names a call is allowed, and a second or more earlier it is denied again |
| ReliabilityStore.RedisDenialNamesTheWait | apps/server/src/lib/reliabilityStore.ts:218-229 | On every run a call made after the wait a Redis denial names is allowed, and one made a second or more too early is denied |
| ReliabilityStore.OneKeyIsTouched | apps/server/src/lib/reliabilityStore.ts:93-115 | A call changes the window of its own key only, and an allowed one names no wait |
| ReliabilityStore.OneRedisKeyIsTouched | apps/server/src/lib/reliabilityStore.ts:218-229 | The same for the Redis store |
| DailyQuota.QuotaDenialNamesTheWait | apps/server/src/lib/reliabilityStore.ts:123-130 | The wait a denied reservation names ends in the next UTC day, where a reservation is granted exactly when that day has quota left |
| DailyQuota.ReservationReports | apps/server/src/lib/reliabilityStore.ts:117-140 | A reservation is allowed exactly below the limit, reports limit and use after it, and changes one resource's counter of one day by at most one |
| DailyQuota.RedisReservationReports | apps/server/src/lib/reliabilityStore.ts:231-242 | The Redis store counts denied attempts too but reports without them, and touches one key |
| DailyQuota.RedisNamesADayTooMany | apps/server/src/lib/reliabilityStore.ts:231-242 | On every run the wait of a Redis denial is exactly 86400 seconds longer than that of the memory store and ends a UTC day later |
| DailyQuota.StoresDecideAlike | apps/server/src/lib/reliabilityStore.ts:117-257 | On every run with a non-decreasing clock both stores give the same answers, and the memory counter is the Redis counter cut off at the limit |
| DailyQuota.NeverExpiresInItsDay | apps/server/src/lib/reliabilityStore.ts:231-236 | A daily Redis key that was set is live at every later moment of its own UTC day |
| DailyQuota.GrantsExactlyTheLimit | apps/server/src/lib/reliabilityStore.ts:117-140 | Each UTC day grants exactly its first limit reservations, and the counter is their number |
| Stores.MemoryReliabilityStore.ConsumeFixedWindow | apps/server/src/lib/reliabilityStore.ts:93-115 | Windows and answer are those of the specification; daily counters stay |
| Stores.MemoryReliabilityStore.GetOrCreateDailyCounters | apps/server/src/lib/reliabilityStore.ts:159-168 | The day's counters exist afterwards and are returned |
| Stores.MemoryReliabilityStore.ReserveDailyQuota | apps/server/src/lib/reliabilityStore.ts:117-140 | Counters and answer are those of the specification; windows stay |
| Stores.MemoryReliabilityStore.GetUsageSnapshot | apps/server/src/lib/reliabilityStore.ts:142-144 | The day's counters, created on the way if needed |
| Stores.RedisReliabilityStore.Increment | apps/server/src/lib/reliabilityStore.ts:184-188 | INCR on a key that may be absent or expired |
| Stores.RedisReliabilityStore.EvalReserve | apps/server/src/lib/reliabilityStore.ts:184-194 | The script is the specified atomic step |
| Stores.RedisReliabilityStore.ConsumeFixedWindow | apps/server/src/lib/reliabilityStore.ts:218-229 | Database and answer are those of the specification |
| Stores.RedisReliabilityStore.ReserveDailyQuota | apps/server/src/lib/reliabilityStore.ts:231-242 | Database and answer are those of the specification |
| Stores.RedisReliabilityStore.GetUsageSnapshot | apps/server/src/lib/reliabilityStore.ts:244-257 | The loop over the resources reads the live counters of the day |
| RoomModel.IndexWhere | apps/server/src/models/Room.ts:104-122 | The first user that satisfies the condition, and none exactly when no user does |
| RoomModel.ConnectedCount | apps/server/src/models/Room.ts:180-182 | Zero exactly when no user is connected, and at most the number of users |
| RoomModel.Room.AddUser | apps/server/src/models/Room.ts:74-86 | The room is the old one with the user appended |
| RoomModel.Room.RemoveUser | apps/server/src/models/Room.ts:88-91 | The user and the entry of its timer are gone, everything else stays |
| RoomModel.Room.ReconnectUser | apps/server/src/models/Room.ts:93-102 | Only connection, socket and token of the user change, and its timer is cancelled |
| RoomModel.Room.StartGracePeriod | apps/server/src/models/Room.ts:124-130 | A timer is armed and registered for the user |
| RoomModel.Room.CancelGracePeriod | apps/server/src/models/Room.ts:132-138 | The registered timer, if any, is disarmed and forgotten |
| RoomModel.Room.Disconnect | apps/server/src/handlers/roomDisconnectHandler.ts:22-28 | The user keeps the slot, loses the connection and gets a grace timer |
| RoomModel.Room.SwitchProblem | apps/server/src/models/Room.ts:166-174 | Hints, pending request and custom test cases are reset, nothing else changes |
| RoomProtocol.EveryRun | apps/server/src/handlers/roomHandlerCore.ts:79-132 | Every interleaving keeps the invariants on slots, timers, roles and consent |
| RoomHistory.MembersAndGraceTimers | apps/server/src/handlers/roomDisconnectHandler.ts:22-46 | At most two members despite the awaits in a join, connected means having a socket, and the grace timers of a live room are exactly those of its disconnected members; custom test cases stay within their limit |
| RoomHistory.ExpiryGuardNeverTaken | apps/server/src/handlers/roomDisconnectHandler.ts:40-46 | When a grace timer fires its user is there, disconnected and without socket, and is removed |
| RoomHistory.TokenReclaimsOnce | apps/server/src/models/Room.ts:93-122 | Over a whole run each token value reclaims a slot at most once, and never while it is still somebody's token |
| RoomHistory.ReconnectKeepsIdentity | apps/server/src/handlers/roomHandlerCore.ts:192-220 | A reconnect keeps every id, name, role and place, seats the socket and issues a token that no member had at any earlier moment of the run |
| RoomHistory.OneInterviewerEver | apps/server/src/handlers/roomHandlerCore.ts:304-309 | Over the whole history of a live room exactly one user id is ever interviewer once somebody has joined in interview mode, in front while present, and all others are candidates; in other modes all are peers |
| RoomHistory.ConsentInEveryRun | apps/server/src/handlers/hintHandler.ts:195-269 | Every accepted request is pending or resolved exactly once; a pending one belongs to a connected member and its own consent timer is the only one armed |
| RoomHistory.TimeoutDeniesOnlyItsOwn | apps/server/src/handlers/hintHandler.ts:229-249 | A consent timer left over by a problem switch never resolves a later request |
| RoomEffects.JoinIsTakenUp | apps/server/src/handlers/roomHandlerCore.ts:74-94 | A join is taken up exactly from a socket without seat and without join in a live room, and remembers name and token; any other changes nothing |
| RoomEffects.DeniedJoinLeavesNothing | apps/server/src/handlers/roomHandlerCore.ts:94-96 | A join that the rate limit denies leaves the room as it was |
| RoomEffects.TokenGivesTheSeatBack | apps/server/src/handlers/roomHandlerCore.ts:98-100 | From the request to the seat: whoever joins with the token of a disconnected member gets that member's place, id, name and role, with a new token and no timer, even in a full room; nobody else notices |
| RoomEffects.OtherJoinsAreAdmitted | apps/server/src/handlers/roomHandlerCore.ts:102-118 | Every other join that is let through ends in a new last member with the given name, the role of the mode and an id and token nobody has, or in nothing if the room is full |
| RoomEffects.OutOfTurn | apps/server/src/handlers/roomHandlerCore.ts:94-118 | An answer that no join waits for changes nothing |
| RoomEffects.DisconnectKeepsTheSeat | apps/server/src/handlers/roomDisconnectHandler.ts:17-28 | A member who loses the connection keeps place, id, name, role and token and gets a grace timer; exactly the own pending request is withdrawn |
| RoomEffects.StrangersLeaveNothing | apps/server/src/handlers/roomDisconnectHandler.ts:6-20 | A socket without a seat that disconnects changes nothing |
| RoomEffects.GraceRemovesItsUser | apps/server/src/handlers/roomDisconnectHandler.ts:40-71 | A grace timer removes exactly its own user, and the room exactly when nobody is left |
| RoomEffects.SweepDestroysTheAbandoned | apps/server/src/models/RoomManager.ts:75-88 | The sweep destroys a live room exactly when nobody in it is connected, and changes nothing else |
| RoomEffects.RequestAcceptedExactlyWhen | apps/server/src/handlers/hintHandler.ts:136-252 | A member's request for a hint is accepted if and only if every check passes and the other member is connected; then it is pending under a new identity with its own timer, otherwise nothing changes |
| RoomEffects.StrangersAskNothing | apps/server/src/middleware/authMiddleware.ts:186-202 | A socket without a seat neither requests nor answers |
| RoomEffects.OnlyTheOtherMemberAnswers | apps/server/src/middleware/authMiddleware.ts:186-202 | In every reachable state with a pending request an answer resolves it, and nothing else, if and only if it comes from a member other than the requester; otherwise nothing changes |
| RoomEffects.NothingToResolve | apps/server/src/handlers/hintHandler.ts:229-249 | An answer to no request and a timer that is not armed change nothing |
| RoomEffects.SwitchForgetsTheOldProblem | apps/server/src/models/Room.ts:166-174 | After a problem switch no hint, request or custom test case of the old problem is left, the pending request is resolved, and members, timers, submissions and settings stay |
| RoomEffects.TestcaseAddedExactlyBelowTheLimit | apps/server/src/handlers/testcaseHandler.ts:102-121 | A custom test case is added at the end exactly below the limit |
| RoomEffects.FreshIsEmpty | apps/server/src/models/Room.ts:31-62 | What a new room starts with |
| RoomEffects.SettingsStay | apps/server/src/models/Room.ts:53-59 | Over every run mode, limits and submissions used are those the room started with |
| RoomEffects.NoHintsInInterviews | apps/server/src/middleware/authMiddleware.ts:140-160 | In no run of an interview room is a hint request ever accepted |
| RoomProtocol.RequestHintEffect | apps/server/src/handlers/hintHandler.ts:195-252 | An accepted request with a second member connected always starts its timer |
| RoomProtocol.ReclaimEffect | apps/server/src/handlers/roomHandlerCore.ts:210-218 | What a reconnect changes, and that nothing else does |
| RoomHandlers.RoomHandlers.HandleUserJoin | apps/server/src/handlers/roomHandlerCore.ts:74-94 | The first segment of a join, in place, is the protocol's step |
| RoomHandlers.RoomHandlers.AfterRateLimit | apps/server/src/handlers/roomHandlerCore.ts:94-118 | What follows the rate limit's answer is the protocol's step, for every outcome |
| RoomHandlers.RoomHandlers.TryReconnectUser | apps/server/src/handlers/roomHandlerCore.ts:192-218 | Reconnects exactly when a disconnected user has the token, and otherwise changes nothing |
| RoomHandlers.RoomHandlers.AdmitUser | apps/server/src/handlers/roomHandlerCore.ts:102-118 | Capacity check and new slot are the protocol's step |
| RoomHandlers.RoomHandlers.HandleDisconnect | apps/server/src/handlers/roomDisconnectHandler.ts:6-28 | The disconnect is the protocol's step |
| RoomHandlers.RoomHandlers.GraceTimerFires | apps/server/src/models/Room.ts:124-128 | The timer's callback is the protocol's step |
| RoomHandlers.RoomHandlers.RemoveDisconnectedUser | apps/server/src/handlers/roomDisconnectHandler.ts:40-71 | Guard, removal and destruction of an empty room |
| RoomHandlers.RoomHandlers.HandleHintRequest | apps/server/src/handlers/hintHandler.ts:136-226 | All checks and the pending request are the protocol's step, for every state |
| RoomHandlers.RoomHandlers.StartTimer | apps/server/src/handlers/hintHandler.ts:229-252 | A running consent timer of the room is replaced |
| RoomHandlers.RoomHandlers.ConsentTimerFires | apps/server/src/handlers/hintHandler.ts:231-237 | The consent timer's callback is the protocol's step |
| RoomHandlers.RoomHandlers.HandleHintAnswer | apps/server/src/middleware/authMiddleware.ts:186-202 | Only another member's answer resolves a pending request |
| RoomHandlers.RoomHandlers.HandleRequesterDisconnect | apps/server/src/handlers/hintHandler.ts:573-587 | Only a requester who is disconnected has the request withdrawn |
| RoomHandlers.RoomHandlers.LoadProblemIntoRoom | apps/server/src/handlers/problemHandler.ts:111-112 | The switch resolves a pending request and leaves its timer running |
| RoomHandlers.RoomHandlers.AddTestCase | apps/server/src/handlers/testcaseHandler.ts:102-121 | The limit is checked again after the await |
| LateJoins.GoneExactlyWithoutAJoin | apps/server/src/handlers/roomHandlerCore.ts:94-118 | A socket that disconnects from a live room can be seated later if and only if it had a join in flight |
| LateJoins.SeatedUntilItDisconnects | apps/server/src/handlers/roomDisconnectHandler.ts:6-28 | In every run, whoever holds a seat of a live room keeps it, and keeps the room from every sweep, through every continuation without a disconnect of that socket |
| LateJoins.JoinOutlivesItsSocket | apps/server/src/handlers/roomHandlerCore.ts:94-118 | A concrete run in which a gone socket holds a slot, and in every continuation keeps it and the room |
| RoomManager.DocumentsBelongToLiveRooms | apps/server/src/ws/yjs.ts:99-172 | In every reachable state each shared document's name is the code of a live room, the room bound holds, and every room is in a state its own protocol reaches |
| RoomManager.SweepDestroysExactly | apps/server/src/models/RoomManager.ts:75-88 | A room is destroyed by the sweep, with its document, if and only if nobody in it is connected and nothing has happened for the time limit; all others stay as they are |
| RoomManager.CreatesExactly | apps/server/src/models/RoomManager.ts:17-26 | A room comes into being if and only if the server is not full and the code is new; nothing else changes |
| RoomManager.RoomsDoNotDisturb | apps/server/src/models/RoomManager.ts:48-61 | An event in one room is a step of that room alone, and takes room and document away exactly when it destroys the room |
| RoomManager.RetiredRoomsGoOn | apps/server/src/models/RoomManager.ts:48-61 | A destroyed room goes on for whoever still holds it and never comes back |
| RoomManager.DocumentsExactly | apps/server/src/ws/yjs.ts:99-136 | A document is added exactly for a live room and its present token; closing the editor server drops all; neither touches a room |
| RoomManager.DeadHoldsNoTimer | apps/server/src/models/RoomManager.ts:48-61 | A destroyed room has no timer armed in any later state |
| RoomManager.RoomManager.CreateRoom | apps/server/src/models/RoomManager.ts:17-26 | A room is created exactly when the server is not full |
| RoomManager.RoomManager.Destroy | apps/server/src/models/RoomManager.ts:48-61 | Timers, document and map entry go together, other rooms stay |
| RoomManager.RoomManager.DestroySharedDoc | apps/server/src/ws/yjsDocRegistry.ts:90-103 | Exactly the named document is removed |
| RoomManager.RoomManager.ConnectEditor | apps/server/src/ws/yjs.ts:99-136 | A document comes into being only for a live room and a matching token |
| RoomManager.RoomManager.DestroyIdleRooms | apps/server/src/models/RoomManager.ts:75-88 | Deleting while iterating destroys exactly the rooms with nobody connected and idle for the time limit, with their documents and timers, and returns their number |
| LedgerHistory.OneExecutionPerRoom | apps/server/src/handlers/executionHandler.ts:408-481 | Over all interleavings and rooms at most one execution per room is between the flag and `finally`, and used plus in progress never exceeds the submission limit |
| LedgerHistory.LedgerBalances | apps/server/src/handlers/executionHandler.ts:408-492 | Allowed reservations are exactly the charged ones plus those held by executions in flight, each room is charged its own, the charges of all rooms ever created and the held slots add up to the grants, and no day grants more than the limit |
| LedgerHistory.CapacityRejectionIsFree | apps/server/src/handlers/executionHandler.ts:432-449 | An execution rejected for capacity gets no grant and no charge in any continuation of the run, and its `finally` only clears the flag |
| LedgerHistory.JudgeCapacity | apps/server/src/handlers/executionHandler.ts:483-492 | At most maxInFlight executions talk to the judge, and none handed to the limiter is lost |
| ExecutionOutcomes.EntersExactlyWhen | apps/server/src/handlers/executionHandler.ts:408-413 | An execution sets the room's flag if and only if the room has a problem, runs nothing, has submissions left and the client is within its limit |
| ExecutionOutcomes.ChargedExactlyWhen | apps/server/src/handlers/executionHandler.ts:408-492 | From every reachable ledger, an uninterrupted execution with a free slot is charged to its room and day if and only if the room was ready, the client allowed, everything there and the day's quota not used up; otherwise room, books and limiter are as before |
| ExecutionOutcomes.FailedReservationIsFree | apps/server/src/handlers/executionHandler.ts:425-429 | A store that fails, before or after counting, charges nobody |
| ExecutionHandler.ExecutionSession.CheckRoomExecutionLimit | apps/server/src/models/Room.ts:140-154 | The three checks in turn are the room's condition for executing |
| ExecutionHandler.ExecutionSession.Start | apps/server/src/handlers/executionHandler.ts:408-413 | The flag is set exactly when the client and the room may execute, and nothing else changes |
| ExecutionHandler.ExecutionSession.ReserveSubmission | apps/server/src/handlers/executionHandler.ts:425-429 | The local flag is set exactly on a granted reservation |
| ExecutionHandler.ExecutionSession.Finish | apps/server/src/handlers/executionHandler.ts:474-480 | The room is charged exactly for a reserved submission, and the flag cleared |
| ExecutionHandler.ExecutionSession.HandleExecution | apps/server/src/handlers/executionHandler.ts:408-481 | Without interruption: charged and counted together exactly when every gate is passed, flag clear at the end |
| BoundedOutput.BoundedStdout.Write | apps/server/src/services/pythonHarness.ts:114-123 | The stream holds the first limit characters of everything written, and the flag is set exactly when there was more |
| BoundedOutput.BoundedStdout.GetValue | apps/server/src/services/pythonHarness.ts:128-129 | The first limit characters of everything written |
| BoundedOutput.TruncateText | apps/server/src/services/pythonHarness.ts:132-136 | The text is kept whole exactly when it is not flagged |
| BoundedOutput.CaseErrorResult | apps/server/src/services/pythonHarness.ts:187-197 | An error result under the case's index with the error cut to the limit |
| BoundedOutput.ChildCase | apps/server/src/services/pythonHarness.ts:216-251 | The child's result carries its index, and its output is captured up to the limit |
| BoundedOutput.CutTwice | apps/server/src/services/pythonHarness.ts:402-405 | Cutting each piece first changes neither the captured text nor whether something is cut off |
| BoundedOutput.Collect | apps/server/src/services/pythonHarness.ts:392-414 | One round of the loop adds the child's whole output to what is captured, for either way the child ends |
| BoundedOutput.ParentMain | apps/server/src/services/pythonHarness.ts:384-416 | Nested truncation is flat truncation of the concatenated output, flag included, and there is one result per child under its index |
| ChildReports.HarnessIsAccepted | apps/server/src/services/pythonHarness.ts:389-414 | Whatever the children did, the indexes are 0 to n-1 |
| ChildReports.SubmissionReportsTheChildren | apps/server/src/services/ExecutionService.ts:290-321 | Every submission is graded; the count is that of the right children, and the first failure is the first wrong child, shown by its own traceback, message or value, cut and flagged exactly, or masked if hidden |
| ChildReports.RunReportsTheChildren | apps/server/src/services/ExecutionService.ts:244-288 | Every run is graded; each case shows its own child: its time, and if it is wrong its traceback, message or value, cut to the limit and flagged exactly when cut; the captured text is the first part of all they wrote |
| MarkerFrames.LastMarkerIsGreatest | apps/server/src/services/ExecutionService.ts:94-112 | The marker found is the greatest line-delimited occurrence, none exactly when there is none |
| MarkerFrames.NextMarkerIsLeast | apps/server/src/services/ExecutionService.ts:114-127 | The marker found is the least line-delimited occurrence at or after the start |
| MarkerFrames.FindLastMarkerLine | apps/server/src/services/ExecutionService.ts:94-112 | The backward search loop finds that greatest one |
| MarkerFrames.FindNextMarkerLine | apps/server/src/services/ExecutionService.ts:114-127 | The loop that skips whole markers finds that least one |
| MarkerFrames.NoLineInsideAMarker | apps/server/src/services/ExecutionService.ts:123 | Why skipping is safe: no marker line starts inside a marker |
| MarkerFrames.ParseTaggedJson | apps/server/src/services/ExecutionService.ts:65-92 | The four outcomes: data, missing markers, too large, malformed |
| MarkerFrames.FrameRoundTrip | apps/server/src/services/pythonHarness.ts:336-340 | After any prefix of whole lines, even with earlier frames, parsing gives back exactly the emitted payload when within the limit |
| MarkerFrames.FailsByCause | apps/server/src/services/ExecutionService.ts:65-92 | Each of the four outcomes exactly for its own cause |
| MarkerFrames.LastNewlineIsOptional | apps/server/src/services/ExecutionService.ts:114-127 | A frame without its last newline gives its payload all the same |
| MarkerFrames.CutFrameIsMissing | apps/server/src/services/ExecutionService.ts:70-80 | After any whole lines, earlier frames included, a frame cut between its start tag and the end of its end tag yields missing markers: never an earlier frame's result |
| MarkerFrames.CutStartLineIsNothing | apps/server/src/services/ExecutionService.ts:94-112 | Output cut inside the line of its last start tag is read as if that line were not there |
| MarkerFrames.OnlyItsOwnMarkers | apps/server/src/services/ExecutionService.ts:216-242 | A frame after harmless whole lines yields missing markers for every other tag |
| MarkerFrames.CutHoldsOnlyItsOwnMarkers | apps/server/src/services/ExecutionService.ts:216-242 | The same for a frame cut anywhere |
| Grading.HasExactCaseIndexes | apps/server/src/services/ExecutionService.ts:134-148 | The loop accepts exactly the permutations of 0 to n-1 |
| Grading.DistinctInRangeIsPermutation | apps/server/src/services/ExecutionService.ts:139-147 | Pigeonhole: n distinct indexes below n are a permutation |
| Grading.SortedByPlace | apps/server/src/services/ExecutionService.ts:158-159 | After the check, sorting puts the result of test i at place i |
| Grading.GradeHarnessResults | apps/server/src/services/ExecutionService.ts:150-192 | Grades exactly when the index check passes |
| Grading.BuildRunResult | apps/server/src/services/ExecutionService.ts:244-288 | The report is the specified one |
| Grading.BuildSubmitResult | apps/server/src/services/ExecutionService.ts:290-321 | The report is the specified one |
| Grading.SubmitReportIsRight | apps/server/src/services/ExecutionService.ts:290-321 | A report exactly for permutations; `passed` is the number of passing tests; no failure exactly when all pass, otherwise the least failing index, and a hidden test gives nothing away |
| Grading.RunReportIsRight | apps/server/src/services/ExecutionService.ts:244-288 | One case per test in order, each with its verdict, and the exact count |
| Grading.FailureShowsItsResult | apps/server/src/services/ExecutionService.ts:300-318 | The first failure shows the result that carries its index against the expected value |
| Grading.CaseShowsItsResult | apps/server/src/services/ExecutionService.ts:255-278 | Every case shows the error or the values of the result that carries its index, and a passing one nothing |
| Grading.ReportsIgnoreOrder | apps/server/src/services/ExecutionService.ts:158-159 | Every reordering of the results gives the same reports |
| ExecutionPipeline.EmitTaggedPayload | apps/server/src/services/pythonHarness.ts:336-340 | The three writes make one frame |
| ExecutionPipeline.RunHarness | apps/server/src/services/pythonHarness.ts:373-416 | The harness prints one frame: a failed preflight's error, or the payload of its children |
| ExecutionPipeline.EmitExecutionResult | apps/server/src/handlers/executionHandler.ts:294-319 | The report of the kind asked for, or a refusal when the index check fails |
| ExecutionPipeline.HandleAcceptedExecutionResult | apps/server/src/handlers/executionHandler.ts:321-372 | Sanitized module error first, then the result's frame, the schema, the index check and the report, for runs and submissions |
| ExecutionPipeline.EndToEnd | apps/server/src/handlers/executionHandler.ts:321-372 | For runs and submissions, from any behaviour of the children, after any whole lines without a module error's start marker: refused exactly when too large or rejected by the schema, and otherwise a report that says rightly what the children did and wrote |
| ExecutionPipeline.PreflightReachesTheClient | apps/server/src/handlers/executionHandler.ts:73-85 | A failed preflight run is reported under its own kind with its error sanitized, the compilation error past any whole lines |
| ExecutionPipeline.SanitizedFits | apps/server/src/handlers/executionHandler.ts:73-85 | The client sees at most 503 characters of an error, all of it when at most 500 are left without the paths, and a default text instead of nothing |
| ExecutionPipeline.ReportedExactlyWhen | apps/server/src/handlers/executionHandler.ts:294-319 | The report asked for if and only if the indexes are those of the tests in some order, a refusal otherwise |
| ExecutionPipeline.AnsweredByCause | apps/server/src/handlers/executionHandler.ts:321-372 | Each answer exactly for its own cause: module error, output limit, nothing readable, failed validation, report |
| ExecutionPipeline.CutRunIsNotGraded | apps/server/src/handlers/executionHandler.ts:339-351 | After any harmless whole lines a run cut off while printing its result is never graded on that frame: once the start tag is out the client is told that nothing could be read, and before that it is answered as if nothing of the frame had been printed |
| InputParser.SplitTopLevel | apps/server/src/services/scraper/parsers.ts:74-120 | The loop over quotes, escapes and depths cuts where the specified scanner does |
| InputParser.FirstMissing | apps/server/src/services/scraper/parsers.ts:168-172 | Nothing is reported exactly when every parameter is present; a reported one is missing |
| InputParser.ParseInputAssignments | apps/server/src/services/scraper/parsers.ts:151-175 | The record, or the first error |
| PrintedValues.PrintPasses | apps/server/src/services/scraper/parsers.ts:83-113 | Every printed value returns the scanner to where it was, without a cut |
| PrintedValues.PrintCollapses | apps/server/src/services/scraper/parsers.ts:155 | Collapsing the text of a value is printing the value with its strings collapsed |
| InputRoundTrip.SplitsIntoAssignments | apps/server/src/services/scraper/parsers.ts:74-120 | The splitter finds exactly the printed assignments |
| InputRoundTrip.PrintedInputParses | apps/server/src/services/scraper/parsers.ts:151-175 | What the importer makes of every printed input whose values the host reads back, errors included |
| InputRoundTrip.RoundTripExactly | apps/server/src/services/scraper/parsers.ts:122-175 | For values that the host reads back from their text, the printed values come back if and only if each is importable: single blanks in strings, nothing to escape in a top-level string, no exponent in a top-level number |
| InputRoundTrip.QuoteDoesNotComeBack | apps/server/src/services/scraper/parsers.ts:131-136 | A string that is a quotation mark comes back with its escape |
| InputRoundTrip.BlanksDoNotComeBack | apps/server/src/services/scraper/parsers.ts:155 | Two blanks inside a string come back as one |
| InputRoundTrip.ExponentDoesNotComeBack | apps/server/src/services/scraper/parsers.ts:122-139 | A number that prints with an exponent is refused |
| InputRoundTrip.StringComesBack | apps/server/src/services/scraper/parsers.ts:131-136 | A top-level string comes back exactly when nothing in it is escaped or collapsed |
| InputRoundTrip.MissingIsReported | apps/server/src/services/scraper/parsers.ts:168-172 | For all accepted inputs a missing parameter is reported if and only if some parameter is neither assigned nor inherited by every object, and it is the first such |
| InputRoundTrip.InheritedNamesPass | apps/server/src/services/scraper/parsers.ts:168-172 | Two concrete parameters that are not assigned, of which only one is reported |
| InputRoundTrip.SomeReaderReadsEverything | apps/server/src/services/scraper/parsers.ts:125-145 | What the round trip asks of `JSON.parse` and `Number` can be met for all values at once |
| WrittenInputs.SplitsWhatIsWritten | apps/server/src/services/scraper/parsers.ts:74-120 | However values nest quotes of both kinds, escapes and brackets of all three kinds, exactly the commas between them cut |
| WrittenInputs.QuotedTextComesBack | apps/server/src/services/scraper/parsers.ts:131-175 | A text in quotes of either kind whose white space is single blanks, commas, brackets and escapes included, comes back as written through the whole importer |
| WrittenInputs.QuotedValue | apps/server/src/services/scraper/parsers.ts:131-136 | What stands between two quotes of one kind is taken as it is |
| WrittenInputs.ScalarsExactly | apps/server/src/services/scraper/parsers.ts:122-139 | Three words, plain numbers and quoted texts, a lone quote included, and nothing else, are scalars |
| WrittenInputs.ListsAndRecords | apps/server/src/services/scraper/parsers.ts:141-149 | Lists and records are read by `JSON.parse`, and refused when it throws |
| WrittenInputs.PlainNumberExactly | apps/server/src/services/scraper/parsers.ts:128 | Digits after an optional minus sign, with at most one point, between two of them |
| WrittenInputs.PlainExactlyWithoutExponent | apps/server/src/services/scraper/parsers.ts:128 | Of the numbers of JSON exactly those without exponent |
| WrittenInputs.NoEqualsRefused | apps/server/src/services/scraper/parsers.ts:157-161 | An assignment is refused for lack of an equals sign exactly when it has none |
| WrittenInputs.FirstRefusal | apps/server/src/services/scraper/parsers.ts:157-166 | The first refused assignment is the error of the import |
| WrittenInputs.LastWins | apps/server/src/services/scraper/parsers.ts:167 | A name given more than once has its last value |
| PrintInjective.PrintIsInjective | apps/server/src/services/scraper/parsers.ts:141-149 | No two well-formed values print alike |
| JsonText.EscapeKeeps | apps/server/src/services/scraper/parsers.ts:131-136 | A text escapes to itself exactly when none of its characters needs escaping |
| StreamReader.SplitJoins | apps/server/src/clients/GroqClient.ts:142-143 | Joining what splitting gives is the text again |
| StreamReader.JoinSplits | apps/server/src/clients/GroqClient.ts:142-143 | Splitting what joining gives are the lines again |
| StreamReader.LinesAreUnique | apps/server/src/clients/GroqClient.ts:142-143 | The lines found are the only ones without a newline that join to the text |
| StreamReader.SplitConcat | apps/server/src/clients/GroqClient.ts:140-143 | Complete lines stay, what is left over goes in front of the next chunk |
| StreamReader.ReadStreamChunks | apps/server/src/clients/GroqClient.ts:132-173 | The nested loops yield and end as the specified incremental reader does, in a read that fails too |
| StreamReader.IncrementalIsBatch | apps/server/src/clients/GroqClient.ts:138-169 | Reading chunk by chunk is reading the whole text at once |
| StreamReader.ChunkingIndependent | apps/server/src/clients/GroqClient.ts:138-169 | Two ways of cutting a stream give the same contents and outcome |
| StreamReader.ConsumesUpToTheStop | apps/server/src/clients/GroqClient.ts:145-166 | Exactly the contents of the data lines before the first end mark or unreadable data line are yielded, and that line decides the outcome |
| StreamReader.EveryLine | apps/server/src/clients/GroqClient.ts:145-166 | A line finishes the stream exactly when it is the end mark, is a mistake exactly when it is another data line that does not parse, yields exactly its content if it has one, and is passed over otherwise |
| StreamReader.NothingAfterTheEndMark | apps/server/src/clients/GroqClient.ts:152 | However the stream is cut and whatever follows, the contents before `data: [DONE]` are yielded and the reading has finished, even if the connection is lost after it |
| StreamReader.OnlyCompleteLinesUpToTheStop | apps/server/src/clients/GroqClient.ts:138-169 | The same for every way of cutting the stream |
| StreamReader.ThrowsExactlyWhen | apps/server/src/clients/GroqClient.ts:138-169 | However the stream is cut, the generator throws if and only if the first complete line that stops the reading is invalid, or there is none and a read fails |
| StreamReader.LastLineReadExactlyWhen | apps/server/src/clients/GroqClient.ts:142-168 | For every way of cutting the stream, every line is read if and only if the reading stops earlier or what follows the last newline is to be skipped |
| StreamReader.UnendedLineIsLost | apps/server/src/clients/GroqClient.ts:142-143 | A stream without a newline yields nothing, however it is cut |
| StreamReader.LostContent | apps/server/src/clients/GroqClient.ts:142-143 | A content that reading the last line would yield is lost |
| StreamCompletion.StreamCompletion | apps/server/src/clients/GroqClient.ts:86-124 | The breaker's new state depends on the request only and is reached before the first chunk is read; the result on the body only, failing reads included |
| StreamCompletion.RecordsAlikeExactlyWhen | apps/server/src/clients/GroqClient.ts:81-122 | The code's breaker and one that also records whether the generator throws differ if and only if the request is admitted and answered with a body whose text and ending are broken |
| StreamCompletion.LostConnectionIsBroken | apps/server/src/clients/GroqClient.ts:138-140 | Every body whose read fails before a complete line is broken |
| StreamCompletion.InvalidLineIsBroken | apps/server/src/clients/GroqClient.ts:154-166 | So is every body that starts with a complete data line which is not JSON |
| StreamCompletion.BrokenStreamsGoUnnoticed | apps/server/src/clients/GroqClient.ts:81-122 | Any number of broken streams leaves the breaker as it began, where one around the stream opens at the threshold |
| StreamCompletion.LostConnectionsGoUnnoticed | apps/server/src/clients/GroqClient.ts:81-122 | Concretely: with every connection lost after its response the circuit stays closed, and the other breaker opens |

## Left out

- Interleavings are sequences of steps on values. In `RoomManager` and `ExecutionLedger` rooms are values in a map, so that several handlers hold one `Room` object is captured by there being one value per room, not by references.
- Socket.io runs a handler one tick after its middleware; the two are one step here.
- OperationLimiter.OperationLimiter.Execute: work that submits to the same limiter synchronously, before its first await, is not modelled; none of the server's work does.
- An execution handler without a limiter is the same as one with a limit that is never reached, so it is not modelled separately.
- LedgerHistory.LedgerBalances: the ledger counts with the memory store; the Redis store decides alike by `DailyQuota.StoresDecideAlike`, under a clock that never goes back.
- Calls made from the breaker's `onStateChange` callback back into the breaker.
- The stores' `clear`, `health` and `close`, connection handling, a skew between the clocks of Redis and the server, and years beyond 9999, where the day key is cut short.
- ReliabilityStore.RedisWindowBound: one clock serves the server and Redis; the retry-after values of the two stores' fixed windows are not compared.
- Room code generation, its fallback without a uniqueness check, and rotation of the editor token.
- The limits on hints used, imports and LLM calls of a room, and that the problem stays the same during an execution, are not claimed: each is checked before an await and not again.
- The reason texts of refusals, logging, and what is emitted to clients apart from the reports.
- Merging of documents and awareness, revalidation of editor access, and everything that Socket.io, Fastify, Postgres, Redis transport and fetch do.
- `JSON.parse`, `JSON.stringify` and `json.dumps` are functions that undo each other where a lemma needs it; deep equality is equality of values.
- Strings are sequences of characters, not of UTF-16 units, so a surrogate pair counts once; Python counts the same way, JavaScript's length limit on the payload does not.
- BoundedOutput.ChildCase: how a child finds its result (compiling, importing and calling the user's code) and the time limit are not modelled, and what the preflight run ends with is a parameter; a child that gives no usable answer has died.
- Interpolation of the harness template and of the user's code into it.
- ExecutionPipeline.EndToEnd: the schema of the parsed result is a parameter; the status that the judge reports before its output is looked at is not modelled.
- ExecutionPipeline.PreflightReachesTheClient: which paths `sanitizeStderr` takes out of an error is a parameter; the default text and the cut at 500 characters are modelled.
- A generator closed by its consumer between two yields, and decoding of bytes to text.
- InputRoundTrip.RoundTripExactly: a number is known by the text that prints it, so the lemma speaks of lists whose numbers `Number` and `JSON.parse` give back under that text; settling white space must not make two names of one record equal. Names hold no white space, quote, bracket, comma or equals sign.
- RoomHandlers.RoomHandlers.HandleUserJoin: a second join of a socket whose join is in flight is dropped, which the source leaves to its client.
- RoomHandlers.RoomHandlers.HandleHintRequest: whether the requester has cooled down is a parameter, and the delivery to a lone member is not modelled.
- RoomManager.RoomManager.CreateRoom: the code is handed in, never used before; see the generation of codes above.
- RoomManager.RoomManager.ConnectEditor: whether the token is the room's present one is a parameter, and so are the checks of origin and access before it.
- ExecutionHandler.ExecutionSession.HandleExecution: one call that nothing interrupts, with the limiter's and the resources' answers as parameters; what interleaving adds is `ExecutionLedger`.
- The other parsers of the importer, which read pages and metadata of an external site.
- Client code, which mirrors the server's events.
