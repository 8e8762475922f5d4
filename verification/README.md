# A verified model of the amberjs runtime core

amberjs is a JavaScript runtime written in Rust. This project models the state machines and codecs at
its core in Dafny and proves what they keep over whole runs. Each group of files stands for one source
file; code that updates state in place is a class whose methods are proved against functions of the old
state, and the theorems are about those functions and about runs made of them.

| files | source | subject |
|---|---|---|
| `ModuleLoader`, `WhitePath`, `RequireReplies` | `src/nodejs.rs` | CommonJS `require` over cyclic module graphs |
| `TimerWorker`, `TimerRuns`, `TimerLaws` | `src/event_loop.rs` | the timer map, its ordered index and counter, firing passes |
| `IoCompletionQueue`, `EventLoopWaker`, `CompletionWakeup` | `src/event_loop.rs` | the two cross-thread protocols and their composition, as atomic steps in any interleaving |
| `HttpText`, `HttpReader`, `HttpRequest`, `HttpAcceptance`, `HttpFailures`, `HttpResponse`, `HttpAnswers`, `HttpClient`, `HttpRoundTrip` | `src/https_serve.rs` | HTTP/1.1 reading, parsing, failing and printing on bytes, and what a client sends and sees |
| `Utf8` | `src/https_serve.rs`, `src/agent.rs` | the UTF-8 check, lossy decoding and trimming against the encoding of code points |
| `TaskQueues`, `StealInterleavings`, `StealOutcomes`, `StealAlone`, `StealRaces`, `LoadBalance`, `WorkStealingScheduler`, `BatchExecutor` | `src/concurrent_execution.rs` | priority queues, steals (also lock by lock), balancing, batch execution |
| `Permissions` | `src/permissions.rs` | the capability broker and its fast path |
| `McpFraming`, `McpHeaders`, `McpServer` | `src/agent.rs` | Content-Length framing and the server loop |
| `IsolatePool` | `src/isolate_pool.rs` | capacity and ownership of pooled isolates |
| `HotPathTracker` | `src/hot_path_tracker.rs` | hot codes and the truncating running mean |
| `Prelude` | | shared small types |

The main theorems:

- `WhitePath.WhitePathTheorem`: the exact final cache of a `require`, for any finite module graph;
  `RequireReplies.ReplyOfARun` and `RequireReplies.EveryCallSharesTheObject`: what it answers.
- `IoCompletionQueue.FalseMeansDelivered` and `EventLoopWaker.NoLostWakeup`, joined in
  `CompletionWakeup.NoLostCompletion`: no lost work in any interleaving.
- `TimerWorker.Worker.FireDueTimers` with `TimerRuns.IntervalOverARun`: the index and the counter always agree
  with the map, a pass fires exactly the due timers in order, and an interval never runs ahead of its delay;
  `TimerLaws.TimeoutOverARun`, `TimerLaws.FiresWhenDue` and `TimerLaws.CancelledIsSilent`: when each timer fires.
- `HttpRequest.ReadHttp11`: the result does not depend on how the bytes are chunked or interrupted;
  `HttpAcceptance.RequestReceivedIff` and `HttpFailures.FailureCases` state exactly which streams are accepted and
  which get each failure, and `HttpAnswers.HeadAnswerHasNoBodyIff` which HEAD requests are answered without a body.
- `HttpRoundTrip.PrintedIsReceivedOrRefused`: every request a client prints is received as it was sent, or refused
  with the status of its fault; `HttpClient.AnswerStatus`: the status a client reads for every stream.
- `HttpResponse.ResponseIsReread` and `McpFraming.FramesRoundTrip`: what the printers write, the readers read back.
- `TaskQueues.RunKeepsInv`, `StealInterleavings.NoTaskTwice`, `StealOutcomes.StealFailsIff`, `WorkStealingScheduler.Scheduler.BalanceLoad`, `BatchExecutor.Executor.ExecuteBatch`:
  order and conservation of tasks, a potential that balancing lowers, every script run exactly once.
- `Permissions.DeniedIff`, `Permissions.SandboxAllowsOnlyTheJustified` and `Permissions.FastPathIsExact`.

Where the code differs from what its documentation or a standard says, the model follows the code:

- `docs/SERVE_HTTP_CONTRACT.md:47` promises no body bytes in the answer to a HEAD request. The answer to a stream
  that starts with `HEAD ` has none exactly when a complete request was received, or its head fits, is clean text
  of version HTTP/1.1, and is wrong in some other way than by a malformed Content-Length alone
  (`HttpAnswers.HeadAnswerHasNoBodyIff`; two concrete requests in `HttpAnswers.HeadAnswersWithBody`).
- `docs/SERVE_HTTP_CONTRACT.md:76` promises 408 for a read timeout. The code gives it exactly for the `TimedOut`
  kind of error; any other kind, such as the one a timed-out socket read has on Unix, is an I/O error without an
  answer (`HttpFailures.FailureCases`, `HttpAnswers.TimeoutIsAnsweredIff`, `HttpAnswers.SilentTimeout`).
- `docs/SERVE_HTTP_CONTRACT.md:70` lists a missing Content-Length as a failure. The code takes it as an empty body
  whenever the rest of the head is fine (`HttpAnswers.MissingLengthAcceptedIff`, a concrete request in
  `HttpAnswers.MissingLengthIsAccepted`).
- Sections 4 and 5 of the JSON-RPC 2.0 specification leave exactly the valid requests without an id member
  unanswered, and answer an object that is no request with an error. The server decides by the method name and
  checks neither version nor method: `McpServer.ConformsIff` states which objects it treats as the standard asks,
  `McpServer.ConformanceExamples` has one object for each way to differ.
- A high-priority steal removes a task by id; when two tasks share an id it can lose one
  (`TaskQueues.HighStealConservesIff`, `TaskQueues.DuplicateIdsLoseATask`).
- A high-priority steal does not hold the locks between its scan and its search, so it can come back empty beside a
  task it may take. It does exactly when it saw nothing, or no queue had its task at the moment it was searched
  (`StealOutcomes.StealFailsIff`); without moves during the call, exactly when it saw nothing, or its task was handed
  out before the search came to its queue (`StealOutcomes.UnmovedStealFailsIff`). `StealRaces` has one run against a
  taker and one against a move.
- Warming a pool that is already in use can exceed its capacity (`IsolatePool.CapacityHoldsIff`,
  `IsolatePool.LatePreWarmBreaksCapacity`).

## Model

| member | source | states |
|---|---|---|
| ModuleLoader.Loader.RequireCallback | src/nodejs.rs:451-610 | the re-entrant callback leaves exactly the cache, loading set, object count and run log of the recursive specification, and returns its value, which RequireReplies pins down; it terminates on cyclic graphs because the loading set grows |
| ModuleLoader.Loader.RunScript | src/nodejs.rs:556-592 | running a body performs its `require` calls one after the other, each on the state the last one left |
| ModuleLoader.Load | src/nodejs.rs:487-518 | whatever the scripts do, the loading set is restored |
| WhitePath.RequireEffect | src/nodejs.rs:487-610 | for every script behaviour: cached objects stay, and only modules that were neither cached nor loading are started or cached |
| WhitePath.CacheAndLoadingStayDisjoint | src/nodejs.rs:514-592 | no module is ever both finished and on the stack |
| WhitePath.PathIsStarted | src/nodejs.rs:487-592 | every runnable module at the end of an import path through untouched modules from a started module was started |
| WhitePath.WhitePathTheorem | src/nodejs.rs:487-610 | the bodies started are exactly the runnable modules reachable while avoiding the loading set and the cache; the cache grows by exactly those of them that end with an object, and each of those ran once |
| WhitePath.CachedModuleIsShared | src/nodejs.rs:499-513 | once cached, a module is returned as the same object by every later `require` in the session, and no body runs |
| RequireReplies.RepliesWithoutRun | src/nodejs.rs:462-513 | a built-in name gets that built-in, a module on the stack a fresh object, a cached one its cached object, a file that does not run a fresh object; nothing else changes |
| RequireReplies.BodyIsItsCalls | src/nodejs.rs:556-592 | a body is its `require` calls in order, each on the state the last one left and answered by the loader, and then the action that is no call |
| RequireReplies.ReplyOfARun | src/nodejs.rs:514-610 | a module whose body runs is answered with the value the body returned, which is cached on top of what its calls left if it is an object; a body that throws caches nothing and the reply is an object of its own |
| RequireReplies.ReplyIsTheCachedObject | src/nodejs.rs:574-591 | the reply to the first call already is the object found in the cache afterwards; without a cache entry it is no object, or one that this call made |
| RequireReplies.EveryCallSharesTheObject | src/nodejs.rs:499-592 | the first call and every later one in a session give the same object, by whatever name and after whatever other loads |
| IoCompletionQueue.Queue.AddPendingOp | src/event_loop.rs:79-82 | first step of `begin_op`: only the counter changes |
| IoCompletionQueue.Queue.AllocateId | src/event_loop.rs:79-82 | second step of `begin_op`: hands out the next id |
| IoCompletionQueue.Queue.PushCompletion | src/event_loop.rs:84-87 | first step of `complete`: appends, before the counter falls |
| IoCompletionQueue.Queue.SubPendingOp | src/event_loop.rs:88 | second step of `complete`: wrapping decrement |
| IoCompletionQueue.Queue.DrainAll | src/event_loop.rs:92-97 | takes the whole queue in order |
| IoCompletionQueue.RunKeepsInv | src/event_loop.rs:79-103 | in every interleaving the counter is the number of open operations and completed ids are distinct |
| IoCompletionQueue.FalseMeansDelivered | src/event_loop.rs:99-103 | if `has_pending` answers false, every operation begun before the call has been delivered by a drain, whatever happens between its two reads |
| IoCompletionQueue.TrueMeansWork | src/event_loop.rs:99-103 | true is answered exactly when an operation is open at the first read or a completion waits at the second |
| IoCompletionQueue.DrainsAreThePushHistory | src/event_loop.rs:84-97 | drains and the queue together are the pushes in order, ids are distinct and fresh, the counter never wraps |
| IoCompletionQueue.SwappedReadsMissWork | src/event_loop.rs:99-103 | with the two reads swapped, a begun operation can be missed |
| CompletionWakeup.NoLostCompletion | src/event_loop.rs:84-97 | with the wake as third step of `complete`: in every interleaving an undelivered completion has the flag up, a completer before its wake, or a drain owed; a sleeping main thread was notified or a completer is before its wake; such a completer can always go on |
| EventLoopWaker.Waker.WakeUp | src/event_loop.rs:205-210 | raises the flag and notifies a sleeper |
| EventLoopWaker.Waker.BeginWait | src/event_loop.rs:220-229 | consumes a raised flag, or answers false at once for a zero timeout, or falls asleep |
| EventLoopWaker.Waker.EndWait | src/event_loop.rs:230-235 | the answer of a wait that slept |
| EventLoopWaker.Waker.AppendFired | src/event_loop.rs:441-447 | appends fired ids before the wake |
| EventLoopWaker.Waker.PollFiredTimers | src/event_loop.rs:759-764 | takes all fired ids in order |
| EventLoopWaker.NoLostWakeup | src/event_loop.rs:205-246 | waiting ids always have the flag up, a producer about to wake, or the main thread about to poll; it never sleeps on them without a notification sent or still to come |
| EventLoopWaker.FalseMeansNothingAnnounced | src/event_loop.rs:220-245 | a wait answering false finds the queue empty or a producer that has not woken yet |
| EventLoopWaker.PollsAreTheAppendHistory | src/event_loop.rs:759-764 | all polls together are the appended ids in order; a poll delivers everything appended before it |
| EventLoopWaker.FlagRemembersWakes | src/event_loop.rs:205-235 | in every run the flag is up exactly when there was a wake that no wait has taken notice of |
| EventLoopWaker.WaitAnswers | src/event_loop.rs:220-235 | so a wait answers true at once for such a wake, else false at once or it blocks; after blocking it answers true for such a wake or if it did not time out |
| EventLoopWaker.Waker.Reset | src/event_loop.rs:212-216 | lowers the flag and nothing else |
| EventLoopWaker.ResetKeepsInvIff | src/event_loop.rs:212-216 | `reset` keeps the invariant behind the two results above iff no ids are waiting, a producer is still to wake, or the main thread is about to poll |
| EventLoopWaker.ResetLosesWakeups | src/event_loop.rs:212-216 | a reachable state in which it does not: the main thread then sleeps on announced ids |
| TimerWorker.Worker.HandleTimerCommand | src/event_loop.rs:278-393 | after any command the index is the image of the map and the counter its size; schedules overwrite, cancels report presence, and exactly the two shutdowns stop the worker |
| TimerWorker.Worker.FireDueTimers | src/event_loop.rs:395-448 | terminates even with zero delays; fires exactly the timers due at `now`, once each, by deadline, sequence and id; re-arms those with repetitions left; appends the ids and wakes iff some fired; index and counter agree with the map again |
| TimerWorker.Worker.PopDue | src/event_loop.rs:403-425 | the popping loop empties the map of exactly the due timers, least key first |
| TimerWorker.Worker.TakeLeast | src/event_loop.rs:406-409 | takes the timer with the least key if it is due |
| TimerWorker.Worker.PutBackAll | src/event_loop.rs:427-439 | every noted timer is back in the map, with a deadline one delay after the clock reading it gets |
| TimerWorker.DueOrderIsUnique | src/event_loop.rs:403-425 | the firing order is determined by the map and the clock value |
| TimerRuns.StepProgress | src/event_loop.rs:410-439 | one command or pass keeps the pace and the repetition count of an untouched interval |
| TimerRuns.IntervalOverARun | src/event_loop.rs:317-321 | over any run, firing j (from 0) of an untouched interval comes no earlier than start + (j + 1) * delay; it fires at most its repeat count and leaves the map with the last firing; 0 and 2^32 - 1 repeat without end |
| TimerRuns.TimeoutFiresInFirstDuePass | src/event_loop.rs:395-448 | an untouched timeout fires exactly once, in the first pass that begins at its deadline or later |
| TimerLaws.CommandEffect | src/event_loop.rs:278-393 | what each command leaves in the map, field by field: a timeout has one firing, an interval its repeat count or 2^32 - 1 for 0, a cancel removes one timer, clears and shutdowns all |
| TimerLaws.PassEffect | src/event_loop.rs:395-448 | exactly the due timers fire, by deadline, sequence, id; those with firings left stay, with one less unless endless, the same delay and sequence; all others are untouched |
| TimerLaws.RearmedInFiringOrder | src/event_loop.rs:427-439 | the new deadlines of a pass exactly: each delay counts from the clock reading whose number is the number of timers re-armed before |
| TimerLaws.TimeoutOverARun | src/event_loop.rs:286-311 | from its command on, an untouched timeout fires once, in the first pass at start + delay or later, is unchanged until then and gone afterwards |
| TimerLaws.FirstPassIsFirst | src/event_loop.rs:403-425 | that pass is the first of the run that begins late enough |
| TimerLaws.CancelledIsSilent | src/event_loop.rs:338-393 | after a cancel, a clear or a shutdown, acknowledged or not, the timer never fires until it is scheduled again |
| TimerLaws.FiresWhenDue | src/event_loop.rs:403-439 | an untouched timer of any kind waits unchanged for the first pass at its deadline or later and fires in it; what is left of it then |
| TimerRuns.RunWorker | src/event_loop.rs:470-563 | the worker takes the scripted events in order until a shutdown, as a run of the specification |
| HttpReader.ReadSome | src/https_serve.rs:610-622 | retries interruptions; delivers bytes while there are any, then the ending |
| HttpReader.ReadHeaderBlock | src/https_serve.rs:579-608 | for every delivery plan the block, or the error, is the same function of the bytes and the ending, and block, surplus and unread bytes make up the stream |
| HttpReader.ReadBody | src/https_serve.rs:741-754 | the body is the declared number of bytes after the head, or the error of the ending |
| HttpRequest.ParseFields | src/https_serve.rs:662-695 | the field loop computes the left fold of the field rules and stops at the first bad line |
| HttpRequest.ParseRequest | src/https_serve.rs:624-730 | parsing gives a function of the block and the bytes behind it |
| HttpRequest.ReadHttp11 | src/https_serve.rs:571-577 | the whole result is independent of chunk sizes and interruptions |
| HttpAcceptance.ReaderGivesHeaderBlocks | src/https_serve.rs:579-608 | what the reader passes on ends with its first blank line |
| HttpAcceptance.NoEmptyFieldLines | src/https_serve.rs:668-671 | on such blocks the branch for empty lines is never taken |
| HttpAcceptance.FieldsAccept | src/https_serve.rs:662-695 | the fields are accepted iff each line is well formed and there are not too many; then the counters are right and the map holds the last value of each lower-case name |
| HttpAcceptance.HeadAcceptedIff | src/https_serve.rs:624-722 | a block is accepted iff request line, field lines, count, Host, framing fields and length conditions all hold; then method, target, map and length are the ones the lines say |
| HttpAcceptance.RequestReceivedIff | src/https_serve.rs:571-754 | a request is received exactly from streams that start with an acceptable head within the limit and its declared body |
| HttpFailures.FieldsCases | src/https_serve.rs:668-684 | the field loop answers 400 iff a bad line comes before there are too many fields, and 431 iff there are too many good ones |
| HttpFailures.HeadCases | src/https_serve.rs:624-739 | the exact heads that fail with each status, and those whose failure is marked as the answer to a HEAD request |
| HttpFailures.FailureCases | src/https_serve.rs:571-754 | for every stream and ending the exact condition of each failure status, of an I/O error, and of a close without a request; 408 iff the ending is `TimedOut` and the stream is short in the head or in the body |
| HttpFailures.OnlySevenStatuses | src/https_serve.rs:571-754 | a failure has one of seven statuses |
| HttpResponse.EncodeResponse | src/https_serve.rs:801-837 | the printer writes the head lines, the blank line and, except for HEAD, the body |
| HttpResponse.ResponseIsReread | src/https_serve.rs:801-841 | for every response, however hostile its fields, the first blank line of the output is the true end of the head and the header reader leaves exactly the body |
| HttpResponse.HeadIsTheLines | src/https_serve.rs:801-841 | splitting the head gives the status line, the safe non-framing fields in order, one Content-Length, and Connection |
| HttpResponse.ResponseFields | src/https_serve.rs:732-837 | read with the request parser's rules, the head declares one Content-Length that parses back to the body length, closes the connection, has no Transfer-Encoding, and gives every other field its values |
| HttpClient.ReasonPhrases | src/https_serve.rs:843-859 | the table of phrases |
| HttpClient.StatusIsReadBack | src/https_serve.rs:801-809 | split at its first two spaces, the first line of every answer is HTTP/1.1, the status of the response or 500 outside 100 to 599, and the phrase of that number |
| HttpClient.SentFieldsAreTheHandlers | src/https_serve.rs:810-841 | the lines of the head are exactly the handler's fields that are tokens with clean values and no framing names in any case, in order and as set, then Content-Length and Connection |
| HttpClient.ServerTexts | src/https_serve.rs:418-427 | the texts of the fields the server sets itself |
| HttpClient.BodyIsSentIff | src/https_serve.rs:834-836 | the body is left out exactly for HEAD in any case |
| HttpAnswers.HandlePlainConnection | src/https_serve.rs:461-494 | a connection sends the handler's response, or the failure with a body unless it is marked, or nothing, as a function of the bytes and the ending |
| HttpClient.AnswerStatus | src/https_serve.rs:461-494 | the status a client reads for every stream: the handler's for a complete request, otherwise s exactly when the stream fails with s |
| HttpClient.FailureTexts | src/https_serve.rs:579-754 | the text of every failure by its cause, as `docs/SERVE_HTTP_CONTRACT.md` lists them |
| HttpClient.FailureAnswer | src/https_serve.rs:795-799 | the bytes of a failure answer: a plain-text head for the status and the text, and the text as body unless it is marked as answering HEAD |
| HttpClient.TextResponseLines | src/https_serve.rs:418-427 | the four lines of that head |
| HttpRoundTrip.RequestLineIff | src/https_serve.rs:639-661 | an accepted request line is a method of 1 to 20 upper-case letters, a target that starts with a slash, and HTTP/1.1, with single spaces |
| HttpRoundTrip.OtherVersionIff | src/https_serve.rs:648-653 | a line refused with 505 has three parts of which the last is another HTTP version |
| HttpRoundTrip.PrintedHeadCases | src/https_serve.rs:624-739 | for every message a client prints, the status its fields are refused with, or none |
| HttpRoundTrip.PrintedIsReceivedOrRefused | src/https_serve.rs:571-754 | every printed message whose head fits is refused with that status, or received with its method, target, declared body and, under lower-case names, last values |
| HttpRoundTrip.WellSentIsReceived | src/https_serve.rs:571-754 | one with a Host, the length of its body and none of the refused fields comes back whole |
| Utf8.Utf8Iff | src/https_serve.rs:637-638 | bytes are accepted as text exactly when they encode Unicode scalar values |
| Utf8.TrimDrops | src/https_serve.rs:685 | trimming takes exactly the characters of Unicode's White_Space property off both ends |
| Utf8.LossyIff | src/agent.rs:560 | lossy decoding gives text and keeps exactly what is text already |
| Utf8.BadPieceIsMaximal | src/agent.rs:560 | what is replaced by one U+FFFD is one byte or the longest start of a character |
| HttpAnswers.HeadAnswerHasNoBodyIff | src/https_serve.rs:795-837 | for every stream that asks HEAD and every ending: the answer has no body bytes iff a complete request was received or the head is wrong in a marked way |
| HttpAnswers.HeadAnswersWithBody | src/https_serve.rs:732-754 | a HEAD request with `Content-Length: x`, and one that declares a byte it does not send, are answered with body bytes |
| HttpAnswers.TimeoutIsAnsweredIff | src/https_serve.rs:610-622 | a read timeout on a short stream is answered, and with 408, iff it has the `TimedOut` kind |
| HttpAnswers.SilentTimeout | src/https_serve.rs:481-491 | a connection that times out with the other kind before any byte gets no answer |
| HttpAnswers.MissingLengthAcceptedIff | src/https_serve.rs:696-722 | a stream whose head fits and has no Content-Length is accepted iff line, fields, Host, Transfer-Encoding and Expect are fine, and then with an empty body |
| HttpAnswers.MissingLengthIsAccepted | src/https_serve.rs:715-719 | one concrete request without Content-Length is received with an empty body |
| TaskQueues.StepKeepsInv | src/concurrent_execution.rs:705-933 | each operation keeps order and conservation |
| TaskQueues.RunKeepsInv | src/concurrent_execution.rs:705-933 | over any run with distinct ids every queue is sorted by priority, first in first out among equals, and submitted tasks are exactly the queued and the handed-out ones |
| TaskQueues.EndsOfAnOrderedQueue | src/concurrent_execution.rs:752-786 | owners get the oldest of the most urgent tasks, thieves the youngest of the least urgent |
| TaskQueues.HighStealTakesTheBest | src/concurrent_execution.rs:888-933 | with distinct ids a high-priority steal takes and returns the first of the most urgent tasks of the other queues, touches nothing else, and fails iff there is none |
| TaskQueues.HighStealConservesIff | src/concurrent_execution.rs:888-933 | in general a steal loses and duplicates nothing iff the first task with the id of the best task equals it |
| TaskQueues.DuplicateIdsLoseATask | src/concurrent_execution.rs:888-933 | a concrete steal with a shared id that loses a task |
| StealInterleavings.NoTaskTwice | src/concurrent_execution.rs:705-1103 | with one queue lock per step, in every interleaving with distinct ids each submitted task is in one queue, in the hand of one move, or handed out, and never twice |
| StealInterleavings.QueuesStayOrdered | src/concurrent_execution.rs:705-933 | with one queue lock per step, in every interleaving without moves and with distinct ids every queue is ordered by priority and submission at every moment |
| StealOutcomes.SettledStealFailsIff | src/concurrent_execution.rs:888-933 | in any interleaving a steal that settled on a task returns it or nothing, and nothing iff each queue is without it when it is searched |
| StealOutcomes.StealFailsIff | src/concurrent_execution.rs:888-933 | a whole steal call, moves included: empty iff the scan saw nothing it may take, or the task it settled on was missed by every search |
| StealOutcomes.StaysUntilTaken | src/concurrent_execution.rs:705-933 | without moves a task is in the queue where it was seen iff it has not been handed out |
| StealOutcomes.UnmovedStealFailsIff | src/concurrent_execution.rs:888-933 | without moves during the call: empty iff the scan saw nothing, or the task was handed out by the time its queue was searched |
| StealOutcomes.CallGoesOn | src/concurrent_execution.rs:888-933 | a steal that has not returned can always lock its next queue |
| StealAlone.StealAloneIsAtomic | src/concurrent_execution.rs:888-933 | a steal without foreign steps does what the atomic high-priority steal does, whatever the ids |
| StealRaces.TakerWinsTheRace | src/concurrent_execution.rs:888-933 | a run in which a steal comes back empty beside a task it may take, because the owner took the better one |
| StealRaces.MoveHidesTheTask | src/concurrent_execution.rs:888-1103 | a run in which a steal comes back empty although its task was never handed out, because a move brought it to a queue already searched |
| WorkStealingScheduler.Scheduler.SubmitLocalTask | src/concurrent_execution.rs:705-739 | inserts behind every task of at least the same priority; refuses unknown threads |
| WorkStealingScheduler.Scheduler.GetLocalTask | src/concurrent_execution.rs:752-761 | pops the front of the own queue |
| WorkStealingScheduler.Scheduler.StealTask | src/concurrent_execution.rs:763-786 | takes the last task of the first other queue with more than one; None iff there is none |
| WorkStealingScheduler.Scheduler.GetTask | src/concurrent_execution.rs:788-795 | the own queue first, then a steal |
| WorkStealingScheduler.Scheduler.HasPendingTasks | src/concurrent_execution.rs:797-805 | true iff some queue is not empty |
| WorkStealingScheduler.Scheduler.FindBest | src/concurrent_execution.rs:888-912 | the scan finds the first of the most urgent tasks of priority at least 5 in other queues; None iff there is none |
| WorkStealingScheduler.Scheduler.StealHighPriorityTask | src/concurrent_execution.rs:888-933 | undisturbed, returns that task and removes the first one with its id |
| WorkStealingScheduler.Scheduler.MoveTasksOptimized | src/concurrent_execution.rs:1075-1103 | moves up to the given number of tasks, tail to tail, one by one |
| WorkStealingScheduler.Scheduler.BalanceLoad | src/concurrent_execution.rs:1004-1073 | loses no task, never widens the range of lengths, lowers the sum of squares iff it returns true; returns true exactly when the extremes differ by more than ten and by more than half the average, or the variance is high; then up to three pairs from the two ends of the ranking move half their difference, at most twenty tasks, tail to tail, and no other queue changes |
| LoadBalance.RankingRanks | src/concurrent_execution.rs:1039-1044 | the stable sort lists every queue once, heaviest first |
| LoadBalance.RankingIsUnique | src/concurrent_execution.rs:1039-1044 | there is only one such order |
| LoadBalance.DeviationsFromPotential | src/concurrent_execution.rs:1018-1025 | the variance sum is the sum of squares up to terms that moving tasks does not change |
| LoadBalance.MoveImproves | src/concurrent_execution.rs:1046-1068 | moving at most half of a difference narrows it and lowers the sum of squared lengths |
| LoadBalance.RepetitionEnds | src/concurrent_execution.rs:1004-1073 | repeated balancing returns true at most as often as the initial sum of squares |
| BatchExecutor.SpreadTasks | src/concurrent_execution.rs:741-750 | round-robin submission adds exactly the batch |
| BatchExecutor.SpreadIsRoundRobin | src/concurrent_execution.rs:741-750 | task i goes to thread i modulo their number, and what was queued stays |
| BatchExecutor.StealTakesOne | src/concurrent_execution.rs:763-786 | a steal leaves every non-empty queue non-empty |
| BatchExecutor.Executor.RunRound | src/concurrent_execution.rs:1490-1562 | every thread whose queue has a task gets one in the round, unless all scripts have results |
| BatchExecutor.Executor.ExecuteBatch | src/concurrent_execution.rs:1466-1574 | terminates; on an idle scheduler the result indices are a permutation of 0..n-1, each result is a success with the output iff the run of its own script completed, else a failure with the error or the text for a timeout or a missing runtime, and the queues are empty at the end; on a busy one nothing runs twice or disappears |
| Permissions.ResourceBroker.AllowRule | src/permissions.rs:134-142 | adds the rule to one set and takes it out of the other |
| Permissions.ResourceBroker.DenyRule | src/permissions.rs:144-153 | likewise, and raises the restriction flag |
| Permissions.ResourceBroker.DenyAll | src/permissions.rs:156-187 | the six wildcard rules of the sandbox move to the deny set, nothing else moves, and the flag is up |
| Permissions.ResourceBroker.Check | src/permissions.rs:189-259 | answers Deny exactly when the rule or a path above it is denied, or its host is denied and it is not allowed itself, or its wildcard is denied and neither it, its host nor a path above it is allowed |
| Permissions.DeniedIff | src/permissions.rs:201-259 | the same for any two rule sets and any request |
| Permissions.DeniedHostDeniesUrls | src/permissions.rs:224-245 | a denied host denies every URL of that host to connect to or listen on that is not allowed itself, whatever the wildcard says |
| Permissions.FlagTellsOfDenials | src/permissions.rs:134-153 | the flag is up exactly when something was ever denied |
| Permissions.LastCallDecides | src/permissions.rs:134-153 | over any run a rule is in a set iff the last call on it put it there |
| Permissions.CallsAreMonotone | src/permissions.rs:134-259 | `deny` never turns a Deny into Allow and `allow` never the reverse, for any request |
| Permissions.StricterRulesDenyMore | src/permissions.rs:201-259 | fewer allow rules and more deny rules never turn a Deny into Allow |
| Permissions.DeniedPathDeniesSubtree | src/permissions.rs:282-303 | a denied path denies everything below it, whatever is allowed |
| Permissions.DeniedWildcard | src/permissions.rs:201-259 | under a wildcard denial a request is allowed iff a more specific rule allows it and none at least as strong denies it |
| Permissions.SandboxAllowsOnlyTheJustified | src/permissions.rs:156-259 | after `deny_all` and any calls that never allow the wildcard, that is the decision on the six covered pairs |
| Permissions.FastPathAgreesIff | src/permissions.rs:546-558 | the fast path agrees on all requests iff the flag is up or there is no deny rule |
| Permissions.FastPathIsExact | src/permissions.rs:532-558 | it agrees after every run of `allow` and `deny` |
| Permissions.LoweredFlagLetsDeniedPass | src/permissions.rs:524-530 | lowering the flag alone lets a denied request pass |
| McpFraming.Input.ReadMcpMessage | src/agent.rs:539-586 | the byte-wise header loop and the body read give the specified message and consume exactly it; a read error ends reading as the source does |
| McpFraming.EndsHeaderIff | src/agent.rs:542-545 | a header ends with CRLF CRLF or, from four bytes on, with two LF |
| McpFraming.HeaderIsFirst | src/agent.rs:542-560 | the header is the shortest prefix that ends one; exactly when reading it fails, and how |
| McpFraming.FrameRoundTrip | src/agent.rs:539-597 | reading a printed frame gives its body and consumes exactly the frame, whatever follows |
| McpFraming.FramesRoundTrip | src/agent.rs:539-597 | any list of printed bodies reads back as the same list, followed by the end of the input or its read error |
| McpHeaders.LineLengthIff | src/agent.rs:568-580 | a header line gives a length exactly when it is the name in any case, a colon, and a number of 64 bits with white space around it and perhaps a plus sign |
| McpHeaders.ForeignFrameIsRead | src/agent.rs:539-586 | a message with any header of ASCII lines, the length in whichever line gives it first, reads as that many bytes after the header and is consumed exactly; it fails if there are fewer or they are no text |
| McpHeaders.NoLengthFails | src/agent.rs:568-580 | a header that names the length in no line that gives it fails |
| McpHeaders.BareMessageIsRead | src/agent.rs:560-566 | a header that does not name it is the message, trimmed; all white space ends the input |
| McpServer.DispatchJsonRpc | src/agent.rs:344-419 | for every request, the answer and the one tool call that its tool field or method asks for |
| McpServer.WantsReplyIff | src/agent.rs:457-477 | a text is answered exactly when it is not all white space and is no request whose method starts with `notifications/` |
| McpServer.MalformedIsAnswered | src/agent.rs:460-475 | text that does not parse gets error -32700 with version 2.0 and a null id, and no tool is called |
| McpServer.MethodTable | src/agent.rs:360-419 | the outcome of every method that calls no tool, with the version and id the answer carries |
| McpServer.CallTable | src/agent.rs:349-387 | the three ways to call a tool: where its name and arguments come from, with their defaults, and what becomes of its result |
| McpServer.RunMcpServer | src/agent.rs:445-530 | the output is the frames of the replies to the messages of the input, in order, and the server ends as reading ends; an output without room gets as many of those bytes as fit and the server fails |
| McpServer.OneReplyEach | src/agent.rs:455-527 | exactly one reply for each message that is neither blank nor a notification, in order and with its id, null when missing or unparsable; tools are called exactly as those messages ask |
| McpServer.ServeAppend | src/agent.rs:452-529 | replies never depend on later messages |
| McpServer.ServerOutputDecodes | src/agent.rs:445-597 | on framed input the output decodes to one rendered reply per answered message, with its id |
| McpServer.ErrorCodesIff | src/agent.rs:344-428 | exactly when each of the four error codes is answered |
| McpServer.ConformsIff | src/agent.rs:344-527 | a parsed object is answered, or not, as JSON-RPC 2.0 asks iff it is a request whose name has the notification prefix just in case it has no id member, or it is no request and has no method, no tool, no other version and no malformed id |
| McpServer.ConformanceExamples | src/agent.rs:344-527 | one object for each way to differ from the standard, and one without a method that is rejected as it asks |
| McpServer.NullIdReadsAsMissing | src/agent.rs:289-306 | a null id member and a missing one give the same answer, with a null id |
| IsolatePool.Pool.PreWarm | src/isolate_pool.rs:78-115 | warms an uninitialised pool once: by the count in a small pool, by half as many again from sixteen on, never beyond the capacity |
| IsolatePool.Pool.Acquire | src/isolate_pool.rs:117-149 | hands out the oldest pooled isolate and refills, or creates one, or refuses; the guarded subtraction never underflows and the loop's break is never taken |
| IsolatePool.Pool.Release | src/isolate_pool.rs:151-163 | puts the isolate back if there is room; the count saturates at zero |
| IsolatePool.Pool.ShrinkToFit | src/isolate_pool.rs:190-198 | keeps at most the oldest isolate and reports how many went |
| IsolatePool.InitializePool | src/isolate_pool.rs:242-254 | a new pool warmed to three quarters, at least four; from sixteen on that fills it |
| IsolatePool.AcquireFacts | src/isolate_pool.rs:117-149 | within capacity, an acquire fails iff all isolates are in use; a hit hands out the oldest and leaves the others followed by exactly the isolates it adds, at least min(max/4, max - in use) in all; a miss creates one |
| IsolatePool.CapacityHoldsIff | src/isolate_pool.rs:78-198 | a run from a new pool, with warm-ups anywhere and releases of any isolates, stays within the capacity at every step iff its first warm-up fits when it is called |
| IsolatePool.FreshWarmupFits | src/isolate_pool.rs:242-254 | so it does when the pool is warmed first, or never |
| IsolatePool.AcquiresAddUp | src/isolate_pool.rs:117-149 | over every run acquires are hits, misses and refusals |
| IsolatePool.RunKeepsOwnership | src/isolate_pool.rs:78-163 | over any run that releases only handed-out isolates, the count is exact and no isolate is handed out while it is held |
| IsolatePool.LatePreWarmBreaksCapacity | src/isolate_pool.rs:78-89 | one acquire and then a warm-up exceed a capacity of one |
| HotPathTracker.Tracker.TrackExecution | src/hot_path_tracker.rs:89-158 | one call updates the record of its code and the global statistics as specified |
| HotPathTracker.RunIsAccounted | src/hot_path_tracker.rs:89-158 | after any run counts and totals are those of the history, the counts of all codes add up to the executions, the number of hot paths is the number of codes marked hot, and a code is hot iff one of its executions qualified |
| HotPathTracker.HotStaysHot | src/hot_path_tracker.rs:132-142 | hot codes never cool |
| HotPathTracker.MeanDrift | src/hot_path_tracker.rs:147-154 | 0 <= S - n*A <= n(n-1)/2 after n samples with sum S and integer mean A |
| HotPathTracker.DriftBoundIsReached | src/hot_path_tracker.rs:147-154 | that bound is attained for every n |
| HotPathTracker.MeanIsBetween | src/hot_path_tracker.rs:147-154 | the mean lies between the smallest and the largest sample |
| HotPathTracker.MeanFitsTheSum | src/hot_path_tracker.rs:150-153 | the intermediate product never exceeds the true sum, so it overflows only if the sum does |

## Left out

- V8, script evaluation, sockets, TLS, tokio, printing and audit logs: scripts and tools are functions that the environment supplies, readers are bytes with a delivery plan.
- ModuleLoader.Loader.RequireCallback: path resolution and the file system are fixed functions on a finite set of keys, and a body asks for finitely many modules; how a body reacts to a reply is part of that function.
- WhitePath.WhitePathTheorem: the exact cache is stated for bodies whose list of `require` calls does not depend on the replies; for all others RequireEffect states what is kept.
- Locks are not poisoned, one command or one firing pass of the timer worker is one step, `select!` fairness and real clocks are not modelled, and a wait that answers true may be spurious.
- Counter increments do not wrap; decrements are modelled with wrap-around.
- AsyncTimerManager's cancellation acknowledgement channels, command queue capacity and `clear_fired_timers`.
- HTTP: headers are bytes, case folding is ASCII; the accept loop, the TLS connection, write errors and the JavaScript handler are not modelled.
- Scheduler methods are atomic steps, except in StealInterleavings, where each queue lock is one; `smart_steal`, the load monitor, the adaptive pool, statistics and timing are left out, and the variance that triggers balancing is computed over reals, without rounding.
- WorkStealingScheduler.Scheduler.MoveTasksOptimized: says nothing about order by priority, because moved tasks go to the tail.
- BatchExecutor.Executor.ExecuteBatch: `current_concurrent` and durations are not modelled.
- Permissions: path normalisation and URL parsing; paths are normalised component sequences and the host of a URL is an uninterpreted function.
- McpFraming.Input.ReadMcpMessage: a read error comes after the last byte and ends the input; a declared length that cannot be allocated counts as a truncated body.
- McpServer.RunMcpServer: JSON text, schema export and tool results are uninterpreted functions, a tool result may depend on all calls so far; an output fails by running out of room, never in a flush.
- CompletionWakeup.NoLostCompletion: that the main thread drains after each wait is an assumption; no caller in the repository does it yet.
- McpServer.ServerOutputDecodes: replies are UTF-8 texts whose length fits 64 bits.
- IsolatePool: creation times, warm-up counters and the process-wide instance; the products in the warm-up counts are unbounded.
- HotPathTracker.Tracker.TrackExecution: optimisation suggestions, `cleanup`, `reset` and the hash that makes a code id; sums are unbounded integers.
- `src/lock_free.rs`, the optimisers, caches and flame graph: no preserved meaning to state.
