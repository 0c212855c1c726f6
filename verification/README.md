# Verified models of the A2A C++ SDK

This project models the parts of the A2A C++ SDK in which state, concurrency or encoding is intricate, and proves what
they promise. `dafny verify dfyconfig.toml` checks all of it.

Five components are modelled, each in the form its code has.

- **Task subscriptions** (`Subscription*.dfy`). Publishers, a service that shuts down, and for each session a canceller,
  a reader and the suspended coroutine they hand to one another. A step is one critical section of the service mutex, a
  subscriber mutex, a promise mutex or a frame's resume mutex; any party may run between two steps. History fields log
  the publications and what was handed out.
- **Task store and paging** (`TaskStore`, `InMemoryTaskStore`, `ListTasks`, `Listings`, `Paging`, `TokenWalks`,
  `VisibleTasks`). The store is a class with its five containers; a map from id to task, revision and update time is
  what they stand for. Page walks are sequences of store states with arbitrary writes in between.
- **Client streams** (`SerialDispatch`, `Streams`, `StreamLocal`, `StreamInvariant`, `StreamSteps`, `StreamRuns`,
  `StreamErrors`, `StreamRaces`, `StreamEnds`, `CancelHandshake`). Reactors with their command queues, the serial
  dispatch queue of each stream, error recording, completion, the active count and client shutdown in one machine; the
  handshake between cancelling, registering the cancel callback and calling the observer in another.
- **Canonical JSON** (`Utf`, `JsonNumber`, `JsonString`, `CanonicalJson`, `CanonicalOrder`, `CanonicalFaithful`,
  `CanonicalForm`), the scheme of RFC 8785 that agent cards are signed over. Values are a datatype, numbers a sign with
  shortest digits and exponent.
- **Sequential cores**: the server-sent event parser with the frames the server writes (`SseParser`, `SseFrames`,
  `SseLines`, `SseFields`), the UUIDv7 task id generator (`TaskIdGenerator`), and the push notification config store
  (`PushNotificationStore`), each a class with its fields and loops.

`Protocol.dfy` holds the shared records and the lexicographic order, `Decimal.dfy` decimal text.

## Where the code does less than expected

- **Subscriptions can end early.** A publisher queues an update and only afterwards takes the continuation. If the
  reader has consumed the update and parked again in between, the publisher resumes a frame that finds an empty queue
  and an open subscriber, and the coroutine returns. The machine records this as a late signal. What was handed out is
  still a correct prefix. A stream that ended by itself has handed out its terminal event exactly if no signal was late
  (`CompleteIffNoLateSignal`); after one it hands out nothing more (`LateSignalEndsTheStream`), and `StreamsCanEndEarly`
  is a run that leaves the terminal update queued for good.
- **A handler can be called after another one failed.** If the reactor's thread has just recorded a refused task and
  has not suppressed the callbacks yet, a failing handler finds the error recorded and its drain goes on with the next
  task (`HandlersCanFollowFailure`). `FailureStopsExactly` gives the exact condition, and without a refusal nothing
  follows (`FailureStopsTheStream`).
- **The event parser's buffer depends on the chunks after an error**, because a failing line leaves the whole buffer in
  place. Events and first error do not (`ChunksDoNotMatter`); for every split, `BufferAfterChunks` says exactly when the
  buffer does.
- **A second `Cancel` on a handle with its own worker** finds the worker taken and returns without joining it, so the
  observer may still be in a call (`SecondCancelMayReturnEarly`). `CancelSilencesExactly` gives the exact condition, at
  the moment a call takes the lock.
- **Excluding a root member is not quite canonicalising without it**: the excluded member is still read, so it must
  not be repeated and its value must have a text (`ExclusionLeavesOutTheMember` with the exact condition,
  `ExclusionStillReads` with an object that fails it).
- **Task ids** start over within a millisecond after an overflow error, which every new generator can reach
  (`OverflowStartsOver`; `IdsOverRuns` and `AfterOverflow` say exactly when the order holds), and wrap at 2^48
  milliseconds (`TimestampWraps`).
- Revisions of the task store cannot wrap: an entry's update time, which advances by at least one with each write, is
  exhausted first.

## Model

| member | source | states |
|---|---|---|
| `SubscriptionRuns.HandedIsPrefix` | src/server/task_subscription_service.cpp:142-214 | in every reachable state a session has been handed its snapshot and then a gap-free, repeat-free prefix of the publications on its task made after it subscribed, in publication order and ending at the first terminal one at the latest; the snapshot shows context and status of the last publication before the subscription |
| `SubscriptionFields.HandedShowsPublications` | src/server/task_subscription_service.cpp:318-334 | field by field: the first event is a task with the subscribed id, its context and status and no artifacts or history; the k-th update has the id, context and status of the k-th publication on that task since the subscription, and only the last can be in a terminal state |
| `SubscriptionFields.SubscribedExactly` | src/server/task_subscription_service.cpp:142-165 | a subscription is refused exactly after shutdown or when the last publication on the task, or the stored task if there is none, is completed, failed, canceled or rejected; otherwise the snapshot takes context and status from that publication |
| `SubscriptionFields.LiveExactly` | src/server/task_subscription_service.cpp:121-124 | a session is live exactly while its stream has not returned and it is open or has an accepted update not yet handed out |
| `SubscriptionRuns.PendingCounts` | src/server/task_subscription_service.cpp:121-131 | the pending delivery count is the number of queued updates plus the one popped and not yet handed out |
| `SubscriptionRuns.StepKeeps` | src/server/task_subscription_service.cpp:142-316 | every step of every party, enabled in any state, keeps the whole invariant: control of the frame, conservation of events, counts, registry, walks and log |
| `SubscriptionRuns.ReachableKeeps` | src/server/task_subscription_service.cpp:142-316 | hence the invariant holds in every reachable state |
| `SubscriptionTheorems.ResumesAreOwned` | include/a2a/server/stream_response_coroutine.h:22-60 | a frame is resumed by one party at a time, only at the suspension point that party owns, and never after it finished or was destroyed |
| `SubscriptionTheorems.ParkedWithWorkIsSignalled` | src/server/task_subscription_service.cpp:268-294 | no lost wakeup: a parked continuation with a queued event or a closed subscriber has a signaller that can take it now |
| `SubscriptionTheorems.WaitingReaderCanBeWoken` | src/server/task_subscription_service.cpp:29-59 | a waiting reader with news is at most eight steps of parties already at work on its session from being woken, with no new publication, cancellation or timeout |
| `SubscriptionEnds.TeardownIsSafe` | src/server/task_subscription_service.cpp:133-138 | once the cancellation that removed the subscriber has returned, in every continuation nobody holds the continuation, none is stored and no step touches a destroyed frame |
| `SubscriptionClosing.DestroyFindsItSuspended` | src/server/task_subscription_service.cpp:133-138 | a session that may be destroyed has a suspended frame |
| `SubscriptionClosing.CancelledIsGone` | src/server/task_subscription_service.cpp:245-266 | a cancelled session is closed and registered for no task |
| `SubscriptionClosing.CancelBegins` | src/server/task_subscription_service.cpp:245-251 | a cancellation goes to the lock under which its session is closed, and touches no other session |
| `SubscriptionClosing.DrainCompletes` | src/server/task_subscription_service.cpp:296-299 | the wait for resumes ends a cancellation |
| `SubscriptionClosing.ShutdownClosesAll` | src/server/task_subscription_service.cpp:216-243 | after a shutdown, once it and any publication under way have walked their lists, every session is closed, in every continuation |
| `SubscriptionEnds.NotLiveIsExhausted` | src/server/task_subscription_service.cpp:121-124 | a session that reports not live has nothing left to hand out but perhaps the snapshot |
| `SubscriptionEnds.NotLiveIsFinal` | src/server/task_subscription_service.cpp:121-124 | from there on no update is ever handed out, whatever runs |
| `SubscriptionEnds.EndWithoutLateSignalIsComplete` | src/server/task_subscription_service.cpp:301-316 | a stream that ended without a late signal was closed and has handed out everything accepted; if neither shutdown nor cancellation closed it, that is every publication up to the first terminal one |
| `SubscriptionEnds.LateSignalEndsTheStream` | src/server/task_subscription_service.cpp:78-86 | once a late signal has occurred, nothing more is ever handed out |
| `SubscriptionEnds.CompleteIffNoLateSignal` | src/server/task_subscription_service.cpp:78-86 | a stream that ended by itself, neither cancelled nor shut down, has handed out a terminal event exactly if no signal was late |
| `SubscriptionEarlyEnd.StreamsCanEndEarly` | src/server/task_subscription_service.cpp:268-316 | a concrete run in which an uncancelled stream ends after a late signal, with the terminal update published next queued and not handed out |
| `SubscriptionLocal.PushKeeps` | src/server/task_subscription_service.cpp:203-211 | queueing an update keeps the session invariant: counts, order, terminal event last and closing |
| `SubscriptionLocal.PushClosedKeeps` | src/server/task_subscription_service.cpp:205-211 | publishing to a closed subscriber changes nothing but the publisher's place |
| `SubscriptionLocal.CloseKeeps` | src/server/task_subscription_service.cpp:236-240 | closing on shutdown or cancellation keeps the session invariant and owes a wakeup |
| `SubscriptionLocal.TakeKeeps` | src/server/task_subscription_service.cpp:269-276 | exactly one party ends up with the continuation, and the active count follows |
| `SubscriptionLocal.ResumeKeeps` | src/server/task_subscription_service.cpp:282-285 | a signaller resumes the frame only at the await point |
| `SubscriptionLocal.ReturnKeeps` | src/server/task_subscription_service.cpp:282-285 | the resume mutex is released with the frame suspended again |
| `SubscriptionLocal.DropKeeps` | src/server/task_subscription_service.cpp:286-292 | the active count still equals the parties holding the frame |
| `SubscriptionLocal.FrameKeeps` | src/server/task_subscription_service.cpp:301-316 | each section of the coroutine body, from snapshot to return, keeps the session invariant |
| `SubscriptionLocal.SuspendKeeps` | src/server/task_subscription_service.cpp:69-77 | parking happens only with an empty queue of an open subscriber, so no wakeup is missed |
| `SubscriptionLocal.PopKeeps` | src/server/task_subscription_service.cpp:78-86 | the popped event is the next one owed and becomes the one in flight |
| `SubscriptionLocal.YieldKeeps` | include/a2a/server/stream_response_coroutine.h:43-50 | a yielded event is the one in flight and waits for the reader alone |
| `SubscriptionLocal.ReadKeeps` | src/server/task_subscription_service.cpp:29-39 | the reader resumes only after it took the yielded value |
| `SubscriptionLocal.WakeKeeps` | src/server/task_subscription_service.cpp:40-59 | taking the yielded value moves the event in flight to the reader |
| `SubscriptionLocal.DeliverKeeps` | src/server/task_subscription_service.cpp:126-131 | handing out extends the history by the event owed next and lowers the pending count for updates only |
| `SubscriptionLocal.DrainKeeps` | src/server/task_subscription_service.cpp:296-299 | the cancellation waits until no party holds the frame |
| `SubscriptionLocal.DestroyKeeps` | include/a2a/server/stream_response_coroutine.h:87-92 | destroying after the cancellation finds the frame suspended and nobody inside |
| `SubscriptionService.SubscribeLinks` | src/server/task_subscription_service.cpp:142-165 | a new session is registered, and its snapshot and starting place agree with the publications so far |
| `SubscriptionService.PublishLinks` | src/server/task_subscription_service.cpp:173-199 | a publication is logged, recorded as the latest state and gathered for exactly the registered sessions |
| `SubscriptionService.PushLinks` | src/server/task_subscription_service.cpp:203-211 | what a session accepted stays the publications on its task since it subscribed |
| `SubscriptionService.ShutdownLinks` | src/server/task_subscription_service.cpp:216-234 | shutdown gathers every registered session and empties the tables |
| `SubscriptionService.RemoveLinks` | src/server/task_subscription_service.cpp:253-265 | removal takes the session and no other out of the registry |
| `TaskStore.InsertSorts` | src/server/tasks/in_memory_task_store.cpp:64-81 | inserting a cursor keeps the ordered set strictly sorted, with exactly one element more |
| `TaskStore.ExtractSorted` | src/server/tasks/in_memory_task_store.cpp:64-81 | extracting a cursor keeps it strictly sorted, with exactly that element gone |
| `TaskStore.OverwrittenFits` | src/server/tasks/in_memory_task_store.cpp:89-98 | writing over a slot keeps all five containers in agreement and changes just that entry, its revision up by one without wrapping |
| `TaskStore.OverwrittenIsWritten` | src/server/tasks/in_memory_task_store.cpp:72-80 | writing over a slot is one write of the map model, refused exactly when the update time is exhausted |
| `TaskStore.AppendedFits` | src/server/tasks/in_memory_task_store.cpp:100-114 | appending a task keeps the containers in agreement and adds the entry with revision 1 |
| `InMemoryTaskStore.InMemoryTaskStore.constructor` | src/server/tasks/in_memory_task_store.cpp:48-58 | a new store is consistent and stands for the empty map |
| `InMemoryTaskStore.InMemoryTaskStore.TouchTask` | src/server/tasks/in_memory_task_store.cpp:64-81 | the update time strictly advances or the call fails and changes nothing; the ordered set follows |
| `InMemoryTaskStore.InMemoryTaskStore.CreateOrUpdate` | src/server/tasks/in_memory_task_store.cpp:83-115 | the containers stay consistent and the map they stand for changes as one write; every failure leaves it unchanged |
| `InMemoryTaskStore.InMemoryTaskStore.GetSnapshot` | src/server/tasks/in_memory_task_store.cpp:117-127 | the stored task with its revision, or the error for an empty or unknown id |
| `InMemoryTaskStore.InMemoryTaskStore.CreateOrUpdateIfRevision` | src/server/tasks/in_memory_task_store.cpp:129-164 | writes exactly if the current revision is the expected one, 0 standing for absence; otherwise reports a conflict and changes nothing |
| `InMemoryTaskStore.InMemoryTaskStore.Get` | src/server/tasks/in_memory_task_store.cpp:166-177 | the stored task, or the error for an empty or unknown id |
| `InMemoryTaskStore.InMemoryTaskStore.List` | src/server/tasks/in_memory_task_store.cpp:179-218 | the page of matching tasks strictly after the token's cursor, in listing order, with total and with a token exactly when more remain; a bad token is the only error |
| `Listings.ListedQualify` | src/server/tasks/list_tasks.cpp:32-73 | every task of a response is a stored one after the boundary, with the request's context, state and status time from the cutoff on, each if given; it shows identity, context, status, artifacts on request and the last messages of the history |
| `Listings.QualifiedAreListed` | src/server/tasks/list_tasks.cpp:62-77 | conversely every stored task after the boundary with these properties is on the page, or the response has a token and the task lies behind the page |
| `Listings.ListedInOrder` | src/server/tasks/list_tasks.cpp:75-77 | a page is ordered by update time and, among equals, by descending id; it holds at most the requested number, and exactly that if it has a token |
| `Protocol.LessIsLexicographic` | src/server/tasks/list_tasks.cpp:75-77 | the order of ids: the first difference decides, a proper prefix is smaller |
| `Listings.TotalCountsQualified` | src/server/tasks/in_memory_task_store.cpp:179-218 | the total, when asked for, is the number of stored tasks that pass the three filters |
| `InMemoryTaskStore.InMemoryTaskStore.CollectPage` | src/server/tasks/in_memory_task_store.cpp:199-215 | the loop over the ordered set delivers just that page and token |
| `InMemoryTaskStore.InMemoryTaskStore.CountMatching` | src/server/tasks/in_memory_task_store.cpp:192-195 | the number of stored tasks that match |
| `InMemoryTaskStore.EveryTaskCounts` | src/server/tasks/in_memory_task_store.cpp:196-198 | without filters the total is the number of tasks |
| `InMemoryTaskStore.InMemoryTaskStore.Cancel` | src/server/tasks/in_memory_task_store.cpp:220-243 | cancels a stored task that is not terminal as one write; each error leaves the store unchanged |
| `InMemoryTaskStore.InMemoryTaskStore.AppendTaskHistory` | src/server/tasks/in_memory_task_store.cpp:245-289 | appends a message as one write unless the dedupe rule drops it, which changes nothing |
| `InMemoryTaskStore.WrittenOnFields` | src/server/tasks/in_memory_task_store.cpp:64-90 | a write stores the task under its id and changes no other entry, at the next revision and the least time that is neither before the clock nor one the entry had; it fails exactly when no such 64-bit time is left |
| `InMemoryTaskStore.CancelledOnFields` | src/server/tasks/in_memory_task_store.cpp:220-243 | cancelling sets the state to canceled and leaves id, context, timestamp, note, artifacts and history; a completed, failed, canceled or rejected task is left alone |
| `InMemoryTaskStore.AppendedOnFields` | src/server/tasks/in_memory_task_store.cpp:245-288 | appending puts the message last and leaves the rest of the task; a duplicate is left out |
| `InMemoryTaskStore.RunMovesLater` | src/server/tasks/in_memory_task_store.cpp:64-164 | over any run of operations an entry never disappears and is the same or has a later time and a higher revision |
| `InMemoryTaskStore.SameRevisionSameEntry` | src/server/tasks/in_memory_task_store.cpp:129-164 | if a snapshot's revision is still current after any run, the stored entry is still that snapshot |
| `InMemoryTaskStore.OneWriterWins` | src/server/tasks/in_memory_task_store.cpp:154-163 | once a conditional write with a revision succeeded, none with the same revision ever succeeds again |
| `ListTasks.PrecedesTransitive` | src/server/tasks/list_tasks.cpp:75-77 | the listing order is transitive |
| `ListTasks.PrecedesTotal` | src/server/tasks/list_tasks.cpp:75-77 | and total on distinct cursors |
| `ListTasks.EncodeListPageToken` | src/server/tasks/list_tasks.cpp:79-91 | the loop writes the prefix and the hexadecimal digits of the payload |
| `ListTasks.TokenInjective` | src/server/tasks/list_tasks.cpp:79-91 | different cursors of stored tasks have different tokens, whatever bytes the ids contain |
| `ListTasks.TokenShape` | src/server/tasks/list_tasks.cpp:79-91 | a token is a2a1_ and the hexadecimal text of the decimal time, a colon and the id |
| `ListTasks.ParseListPageToken` | src/server/tasks/list_tasks.cpp:93-129 | accepts the empty token and exactly the encodings of cursors, and returns the one cursor encoded |
| `ListTasks.BoundaryOfToken` | src/server/tasks/list_tasks.cpp:93-129 | the token of a cursor stands for that cursor |
| `ListTasks.Unhex` | src/server/tasks/list_tasks.cpp:103-111 | inverts the hexadecimal coding, or reports that there is nothing to invert |
| `Paging.CandidatesAreAfter` | src/server/tasks/in_memory_task_store.cpp:199-207 | the candidates of a page are exactly the matching entries strictly after the boundary, sorted |
| `Paging.WritesMoveLater` | src/server/tasks/in_memory_task_store.cpp:72-80 | a write only creates entries or moves one to a later time and higher revision |
| `Paging.WalkNeverRepeats` | src/server/tasks/in_memory_task_store.cpp:179-218 | a page walk with writes between the requests never returns a task id twice |
| `Paging.CompletedWalkReturnsUntouched` | src/server/tasks/in_memory_task_store.cpp:179-218 | a completed walk has returned every matching task that no write touched |
| `Paging.WalkIsBounded` | src/server/tasks/in_memory_task_store.cpp:179-218 | a walk has at most as many pages as there are tasks, or one |
| `TokenWalks.TokenWalkIsWalk` | src/server/tasks/in_memory_task_store.cpp:179-218 | requests that each carry the token of the response before, with any operations between them, form such a walk, whose pages are the responses |
| `TokenWalks.ResponsesNeverRepeat` | src/server/tasks/in_memory_task_store.cpp:179-218 | no task appears twice in the responses, whatever operations ran between the requests |
| `TokenWalks.ResponsesReturnTheRest` | src/server/tasks/in_memory_task_store.cpp:179-218 | once a response has no token, every task that matched at the start and that no operation in between was about has been returned |
| `VisibleTasks.SelectTaskIds` | src/server/security_policy.cpp:253-293 | walking the store's own pages terminates and returns exactly the next page of the visible part of the matching listing, the number of all visible matches, and a token exactly when more remain |
| `VisibleTasks.SelectingStep` | src/server/security_policy.cpp:273-288 | counting one more visible task and selecting it, skipping it or setting the token gives the page of the longer list |
| `VisibleTasks.CandidatesContinue` | src/server/tasks/in_memory_task_store.cpp:199-215 | continuing after the k-th candidate leaves exactly the candidates behind it |
| `VisibleTasks.WalkContinues` | src/server/security_policy.cpp:264-291 | the token of a store page leads to the candidates behind it, so the pages join to the whole listing |
| `VisibleTasks.ListVisibleTasks` | src/server/security_policy.cpp:215-251 | page size and token errors, the empty answer without scope, and otherwise the visible page re-fetched and projected; not found exactly if a selected task is not accessible in full |
| `VisibleTasks.FetchTasks` | src/server/security_policy.cpp:243-249 | the selected tasks fetched and projected in order, or not found for the first that is not accessible |
| `VisibleTasks.FullViewNeverFails` | src/server/security_policy.cpp:231-249 | with a scope that leaves the projection alone the re-fetch never fails on a fixed store |
| `VisibleTasks.TokensEnd` | src/server/security_policy.cpp:253-293 | for every store, policy and page size of at least one, following the tokens of the selected pages ends after at most one page for each visible task |
| `VisibleTasks.TokensCoverTheVisible` | src/server/security_policy.cpp:253-293 | the pages selected on the way hold the visible tasks, each once and in order |
| `SerialDispatch.DispatchIsSerial` | src/http/http_client_streaming.cpp:203-255 | in every run at most one drain is outstanding, exactly while scheduled; a non-empty queue is scheduled; tasks start once each in acceptance order; pending bytes are the queued sum, within 4 MiB unless one task holds them all |
| `SerialDispatch.PushedWithin` | src/http/http_client_streaming.cpp:207-221 | an accepted task keeps the byte limit, or is alone with bytes |
| `SerialDispatch.PoppedWithin` | src/http/http_client_streaming.cpp:232-241 | taking a task keeps the byte count exact |
| `SerialDispatch.RefusesExactly` | src/http/http_client_streaming.cpp:207-217 | a task is refused exactly if 256 are queued, or bytes are queued and with its own exceed 4 MiB; a terminal task never is |
| `SerialDispatch.SerialStreamDispatch.Enqueue` | src/http/http_client_streaming.cpp:207-226 | takes a task exactly if it is terminal, or fewer than 256 are queued and its bytes fit or none are pending; asks for a drain exactly if none is scheduled |
| `SerialDispatch.SerialStreamDispatch.Next` | src/http/http_client_streaming.cpp:229-244 | hands out the first task, or ends the drain and clears the scheduled flag |
| `StreamRuns.ChunksAreHandledInOrder` | src/http/http_client_streaming.cpp:203-347 | for every interleaving of reactors, workers, handler errors and cancellations the handlers have been called on a prefix of the metadata and chunks that arrived, in order, by at most one drain at a time, and completion at most once |
| `StreamRuns.NothingFollowsCompletion` | src/http/http_client_streaming.cpp:336-347 | once completion was called, no handler call follows in any continuation |
| `StreamRuns.CompletionTellsAll` | src/http/http_client_streaming.cpp:336-355 | completion is given an error exactly if one was recorded; given none, and the client not shutting down, it comes after everything that arrived was handled |
| `StreamErrors.FailureStopsTheStream` | src/http/http_client_streaming.cpp:291-334 | when a handler fails first, then in every continuation in which the stream's queue refuses nothing no further handler is called on what arrived; before the drain takes another task the error is recorded, the callbacks are suppressed and the transfer's cancellation has been queued; completion is given the error |
| `StreamErrors.RecordedErrorsCancel` | src/http/http_client_streaming.cpp:291-301 | in every run: once an error is recorded, by a drain or for a refused task, and nobody is recording, the callbacks are suppressed and the transfer's cancellation has been queued |
| `StreamErrors.SuppressedIsSilent` | src/http/http_client_streaming.cpp:303-334 | once callbacks are suppressed no handler is called on what arrived, whatever runs |
| `StreamErrors.SuccessIsReported` | src/http/http_client_streaming.cpp:291-355 | in every run in which no handler of a stream fails and no task of it is refused, completion is given no error and comes after everything was handled |
| `StreamRaces.FailureStopsExactly` | src/http/http_client_streaming.cpp:291-301 | at the error's lock: nothing is handled after a failed handler, whatever runs, exactly unless a refusal was recorded before, has not suppressed the callbacks yet, and something received is queued |
| `StreamRaces.HandlersCanFollowFailure` | src/http/http_client_streaming.cpp:291-334 | a reachable state in which that happens |
| `StreamEnds.TakenOutEnds` | src/http/curl_stream_reactor.cpp:157-267 | whatever takes a transfer out of its reactor (a processed cancellation of it or its owner, a refused add, its end, a failing or leaving reactor) ends its stream once the reactor is settled, and the completion handler has been called exactly once when no drain is left |
| `StreamEnds.EndedIsCompleted` | src/http/http_client_streaming.cpp:336-347 | a stream that has ended with no drain left has been completed once |
| `StreamEnds.ShutdownIsProcessed` | src/http/curl_stream_reactor.cpp:157-179 | a processed shutdown makes the reactor leave once its batch is done |
| `StreamEnds.OwnerIsSwept` | src/http/curl_stream_reactor.cpp:212-224 | a processed client cancellation is recorded as a sweep of that client |
| `StreamEnds.RequestsAreQueued` | src/http/curl_stream_reactor.cpp:69-123 | cancelling, a client's cancellation and a reactor's shutdown are queued behind what is queued; after the shutdown no client's cancellation is |
| `StreamRuns.StreamQueueIsBounded` | src/http/http_client_streaming.cpp:203-255 | a stream's queue holds at most 256 tasks and the terminal one, within the byte limit |
| `StreamRuns.ActiveStreamsAreCounted` | src/http/http_client_streaming.cpp:280-289 | the active count of a client is the number of its streams registered and not finalised |
| `StreamRuns.ShutdownIsFinal` | src/http/http_client.cpp:92-113 | after shutdown is flagged no stream registers, and a count of zero stays zero |
| `StreamRuns.AddsPrecedeOwnerCancel` | src/http/http_client_streaming.cpp:585-596 | an add command stands before its owner's cancellation in the reactor's queue |
| `StreamRuns.ShutdownDrainsTheCount` | src/http/http_client.cpp:92-113 | once every reactor has processed the owner's cancellation, or left its loop, the count is zero |
| `StreamRuns.TransfersCompleteOnce` | src/http/curl_stream_reactor.cpp:137-155 | every transfer completes at most once, and exactly once when its reactor has left its loop on the shutdown command |
| `StreamRuns.StepKeeps` | src/http/curl_stream_reactor.cpp:112-267 | every step keeps the invariant of streams, reactors and counts |
| `StreamLocal.LocalArrive` | src/http/http_client_streaming.cpp:318-334 | an arriving chunk is queued last, or refused with the error recording begun |
| `StreamLocal.LocalReport` | src/http/http_client_streaming.cpp:291-301 | recording an error, also when another party recorded first, leaves no way for a chunk behind a refused one to be handled |
| `StreamLocal.LocalDrain` | src/http/http_client_streaming.cpp:229-244 | each section of a drain, whether its handler succeeds or fails, keeps delivery in order, the queue serial and completion last |
| `StreamLocal.LocalEnd` | src/http/http_client_streaming.cpp:336-347 | the terminal task is queued once, behind every chunk |
| `StreamLocal.LocalPick` | src/http/curl_stream_reactor.cpp:226-242 | completion takes effect for the first caller only |
| `StreamSteps.ProcessKeeps` | src/http/curl_stream_reactor.cpp:157-224 | processing a command adds, cancels or sweeps exactly the transfers it names |
| `StreamSteps.StartKeeps` | src/http/http_client_streaming.cpp:585-596 | registering counts the stream and queues its add command in one section |
| `StreamSteps.FinalizeKeeps` | src/http/http_client_streaming.cpp:280-289 | finalising lowers the count of the stream's own client by one, once |
| `CancelHandshake.CallbackRunsExactlyOnce` | src/client/client.cpp:48-60 | in either order of registration and cancels the callback runs at most once, and once when all have returned |
| `CancelHandshake.LockOneCallback` | src/client/client.cpp:97-111 | the locked section of a cancel hands the callback to the first canceller only, and only if it was registered before |
| `CancelHandshake.CancelSilencesTheObserver` | src/client/client.cpp:90-123 | on the executor, after a cancel returned outside stream callbacks the observer is in no call and is never called again; with an owned worker this holds of the call that took and joined it |
| `CancelHandshake.QuietIffNeverCalledAgain` | src/client/transport/http_json_streaming.cpp:161-178 | after the request the observer can still be called exactly if a call is under way or was decided on before |
| `CancelHandshake.CancelSilencesExactly` | src/client/client.cpp:97-122 | at the lock of any cancel, in either mode: the observer is silent in every future after its return exactly if the call waits (executor: made outside stream callbacks; owned worker: it finds the worker not yet taken) or no observer call is under way or decided on |
| `CancelHandshake.SecondCancelMayReturnEarly` | src/client/client.cpp:97-117 | a reachable state in which a second cancel from outside has returned while the observer is in a call |
| `CancelHandshake.TraceEndsAtMostOnce` | src/client/transport/http_json_streaming.cpp:191-238 | every observer trace is events followed by at most one error or completion |
| `CancelHandshake.TracesAreExactly` | src/client/transport/http_json_streaming.cpp:161-200 | the traces an observer can see, on the executor and with an owned worker, are exactly events followed by at most one error or completion |
| `CancelHandshake.CancelFromCallbackReturns` | src/client/client.cpp:116-121 | a cancel from inside a stream callback can return while the observer is in that call |
| `Utf.SortKey` | src/core/agent_card/agent_card_json.cpp:41-68 | the loop computes the code units of the text |
| `Utf.ReadCode` | src/core/agent_card/agent_card_json.cpp:44-59 | one character's code point and length, or nothing at a truncated one |
| `Utf.ReadsEncoded` | src/core/agent_card/agent_card_json.cpp:44-59 | the decoder reads back every Unicode scalar value encoded in UTF-8 |
| `Utf.KeyOfEncoded` | src/core/agent_card/agent_card_json.cpp:41-68 | the key of UTF-8 text is its UTF-16 encoding, surrogate pairs included |
| `Utf.KeyInjective` | src/core/agent_card/agent_card_json.cpp:41-68 | on valid UTF-8 the key exists and determines the text |
| `Utf.UnitsDenote` | src/core/agent_card/agent_card_json.cpp:41-68 | the code units of a code point are the point itself or its surrogate pair |
| `JsonNumber.LayoutDenotes` | src/core/agent_card/agent_card_json.cpp:100-125 | in all four exponent ranges the layout denotes the digits times the power of ten |
| `JsonNumber.ScientificShape` | src/core/agent_card/agent_card_json.cpp:100-110 | below 1e-6 and from 1e21 on: one digit, a point exactly if more follow, and an exponent with its sign and without leading zeros |
| `JsonNumber.PlainShape` | src/core/agent_card/agent_card_json.cpp:111-124 | otherwise no exponent, a point exactly if digits stand behind it, and no zero that could be left out |
| `JsonNumber.NumberTextDenotes` | src/core/agent_card/agent_card_json.cpp:70-127 | so does the number text, with its sign |
| `JsonNumber.NumberTextInjective` | src/core/agent_card/agent_card_json.cpp:70-127 | numbers with the same text are equal but for the sign of zero |
| `JsonString.AppendString` | src/core/agent_card/agent_card_json.cpp:137-175 | the loop writes the quoted, escaped text |
| `JsonString.UnescapesOne` | src/core/agent_card/agent_card_json.cpp:140-172 | what is written for a byte, whatever follows, is read by the JSON escape rules as that byte |
| `JsonString.StringsReadBack` | src/core/agent_card/agent_card_json.cpp:137-175 | a reader of JSON's own escapes gets every string back from its text |
| `JsonString.EscapedIsShortest` | src/core/agent_card/agent_card_json.cpp:137-175 | every other JSON text of the string is longer |
| `JsonString.StringTextInjective` | src/core/agent_card/agent_card_json.cpp:137-175 | a string text ends where it ends and determines the string |
| `CanonicalJson.AppendMembers` | src/core/agent_card/agent_card_json.cpp:205-221 | the loop writes the kept members with separators, and fails exactly at an adjacent repeated name |
| `CanonicalOrder.AdjacentCheckCatchesDuplicates` | src/core/agent_card/agent_card_json.cpp:205-211 | after sorting by key the adjacent check finds a duplicate name exactly if there is one, and otherwise the order is strict |
| `CanonicalOrder.SortFacts` | src/core/agent_card/agent_card_json.cpp:202-211 | sorting keeps the members, and without duplicates they stand in strictly increasing order of their UTF-16 code units |
| `CanonicalOrder.AnySortWillDo` | src/core/agent_card/agent_card_json.cpp:202-222 | whatever ascending arrangement the unstable sort leaves, the object's text, or its refusal, is the same |
| `CanonicalOrder.DuplicatesAreRefused` | src/core/agent_card/agent_card_json.cpp:189-222 | an object whose values have texts is refused exactly for a repeated name |
| `CanonicalOrder.RefusedExactly` | src/core/agent_card/agent_card_json.cpp:189-265 | a value has a text exactly if its numbers are finite, no object in it repeats a name and its nesting is within the limit, at every depth |
| `CanonicalOrder.MemberOrderDoesNotMatter` | src/core/agent_card/agent_card_json.cpp:189-265 | values that differ only in member order at any depth, or in the sign of zeros, have the same text or are both refused |
| `CanonicalOrder.ExclusionLeavesOutTheMember` | src/core/agent_card/agent_card_json.cpp:189-222 | excluding a root member equals canonicalising the object without it exactly if the object without it is refused anyway, or the excluded name appears at most once and with a value that has a text |
| `CanonicalOrder.ExclusionStillReads` | src/core/agent_card/agent_card_json.cpp:196-202 | an excluded member with a repeated name inside fails the whole although the object without it has a text |
| `CanonicalFaithful.TextPrefixFree` | src/core/agent_card/agent_card_json.cpp:224-265 | a text followed by a separator can be told from what follows |
| `CanonicalFaithful.SameTextIsAlike` | src/core/agent_card/agent_card_json.cpp:224-265 | values with the same text are equal but for member order and the sign of zero |
| `CanonicalFaithful.CanonicalTextIsFaithful` | src/core/agent_card/agent_card_json.cpp:224-265 | two values that have texts have the same text exactly if they are equal but for member order at any depth and the sign of zero |
| `CanonicalForm.CanonicalHasForm` | src/core/agent_card/agent_card_json.cpp:189-265 | every text written is JSON of its value without white space: literals, brackets, commas and colons, members in strictly ascending order of their names' code units, strings in their shortest form, numbers that denote their value |
| `SseParser.SseParser.Feed` | src/client/transport/sse_parser.cpp:23-47 | the line loop consumes the complete lines and keeps the rest, or stops at the first error with the buffer untouched |
| `SseParser.SseParser.Finish` | src/client/transport/sse_parser.cpp:49-62 | consumes what is left as a line and reports an unterminated frame |
| `SseParser.SseParser.ConsumeLine` | src/client/transport/sse_parser.cpp:64-96 | one line's effect on the frame, or its error |
| `SseParser.SseParser.DispatchEvent` | src/client/transport/sse_parser.cpp:98-110 | hands the assembled event to the callback and clears the frame, or does nothing for an empty one |
| `SseParser.LinesContinue` | src/client/transport/sse_parser.cpp:23-47 | more text goes on where the lines of the first part stopped |
| `SseParser.ChunksDoNotMatter` | src/client/transport/sse_parser.cpp:23-47 | for every split into chunks the events, the unfinished event and the first error are those of feeding the stream whole, and so is the buffer if no line fails |
| `SseParser.BufferAfterChunks` | src/client/transport/sse_parser.cpp:35-45 | for every split into chunks: the state left is that of feeding the stream whole exactly if no line fails, or nothing follows the first chunk that ends a line |
| `SseParser.BufferCanDiffer` | src/client/transport/sse_parser.cpp:35-45 | a concrete stream and cut whose remaining buffers differ |
| `SseLines.LineEndsDoNotMatter` | src/client/transport/sse_parser.cpp:29-32 | a stream none of whose lines ends in a carriage return, with its line feeds written as carriage return and line feed gives the events, unfinished event and first error of the stream itself, however both are cut into chunks |
| `SseFields.StreamsAreReadBack` | src/client/transport/sse_parser.cpp:23-110 | events written with data, name, id and retry fields, with or without a space, comments, either line end and any number of data lines are handed over as their name and their data joined by line feeds, in order, up to the first that the callback refuses, however they are cut into chunks |
| `SseFields.TruncationIsReported` | src/client/transport/sse_parser.cpp:49-62 | a stream that ends behind some lines of an event is reported exactly if they give data or a name |
| `SseFields.FinishEndsTheLine` | src/client/transport/sse_parser.cpp:49-62 | the end of the stream stands for the end of its last line, unless that ends in a carriage return |
| `SseFields.LineWithName` | src/client/transport/sse_parser.cpp:72-96 | a line with a name before its first colon fails exactly if the name is none of data, event, id and retry, and then leaves the event under way as it was |
| `SseFields.LineWithoutColon` | src/client/transport/sse_parser.cpp:72-75 | a line without a colon fails and leaves the event under way as it was |
| `SseFrames.HeartbeatIsSilentBetweenFrames` | include/a2a/core/http_constants.h:34 | a heartbeat emits nothing and changes nothing exactly if the buffer and the frame are empty |
| `SseFrames.ServerFramesAreReadBack` | src/server/transport/rest_transport.cpp:295-342 | whatever data frames, error frames and heartbeats the server writes, under any chunking the parser emits their events in order and ends cleanly |
| `SseLines.CrlfFramesAreReadBack` | src/client/transport/sse_parser.cpp:23-47 | so are they with their line ends written as carriage return and line feed |
| `TaskIdGenerator.UuidV7TaskIdGenerator.GenerateTaskId` | src/server/task_id_generator.cpp:96-151 | without random bytes nothing changes; otherwise the clock ticks with the time as an unsigned number, the id is that of the new clock, and the call fails exactly on overflow |
| `TaskIdGenerator.UuidV7TaskIdGenerator.Pack` | src/server/task_id_generator.cpp:126-136 | the byte array is overwritten in place with timestamp, version and counter, and variant |
| `TaskIdGenerator.IdsCompareAsClocks` | src/server/task_id_generator.cpp:126-141 | ids of different timestamp or counter compare as strings as those do, in both directions |
| `TaskIdGenerator.IdsIncrease` | src/server/task_id_generator.cpp:106-151 | over any stretch without overflow and with timestamps below 2^48, whatever the clock does, ids strictly increase as strings |
| `TaskIdGenerator.FreshMillisecondLasts` | src/server/task_id_generator.cpp:112-124 | a new millisecond yields at least 3073 ids before it overflows |
| `TaskIdGenerator.VersionAndVariant` | include/a2a/server/task_id_generator.h:30-59 | version 7 and the RFC variant, in the bytes and at their places in the text |
| `TaskIdGenerator.PackedShows` | src/server/task_id_generator.cpp:126-136 | the bytes show the time modulo 2^48, version 7, the counter, the RFC's variant and the random bytes |
| `TaskIdGenerator.TextShows` | src/server/task_id_generator.cpp:137-151 | the text is task- and the bytes in hexadecimal, in groups of 4, 2, 2, 2 and 6 |
| `TaskIdGenerator.CounterStarts` | src/server/task_id_generator.cpp:112-117 | a later time starts the counter at the low ten bits of two random bytes |
| `TaskIdGenerator.IdsOverRuns` | src/server/task_id_generator.cpp:106-151 | over any run below 2^48 milliseconds, with or without overflows: a later id is greater exactly if some time in between lies beyond the latest before, or the counter carried on call by call has not wrapped to below its value |
| `TaskIdGenerator.AfterOverflow` | src/server/task_id_generator.cpp:118-123 | the first id after an overflow is greater than the last before it exactly if the time has moved on |
| `TaskIdGenerator.OverflowStartsOver` | src/server/task_id_generator.cpp:112-123 | from a new generator, enough calls in one millisecond end in an overflow after which an id is less than the one before it |
| `TaskIdGenerator.TimestampWraps` | src/server/task_id_generator.cpp:126 | the ids of two calls with increasing times compare as the times do modulo 2^48, so the order fails from any millisecond before 2^48 to 2^48 |
| `PushNotificationStore.InMemoryPushNotificationStore.constructor` | include/a2a/server/push_notification_store.h:72-92 | a new store is consistent and empty |
| `PushNotificationStore.InMemoryPushNotificationStore.CreateOrUpdate` | src/server/push_notifications/push_notification_store.cpp:80-101 | replaces the config of that id in its place or adds it last; the index stays the exact inverse of the list |
| `PushNotificationStore.InMemoryPushNotificationStore.Get` | src/server/push_notifications/push_notification_store.cpp:103-120 | the config of that id, or which of the errors applies |
| `PushNotificationStore.InMemoryPushNotificationStore.List` | src/server/push_notifications/push_notification_store.cpp:122-165 | the page from the token's offset with the next offset exactly if more remain, or which of the errors applies |
| `PushNotificationStore.PageIsFull` | src/server/push_notifications/push_notification_store.cpp:122-165 | a page is a stretch of the list of at most the requested size, exactly that if more follows, and its token says where it stopped |
| `PushNotificationStore.TokensParse` | src/server/push_notifications/push_notification_store.cpp:54-72 | a page token is empty or decimal digits for a 64-bit number, with their value |
| `PushNotificationStore.InMemoryPushNotificationStore.Delete` | src/server/push_notifications/push_notification_store.cpp:167-198 | removes the config and no other, keeps the order of the rest, leaves no empty task entry; deleting what is not there changes nothing |
| `PushNotificationStore.InMemoryPushNotificationStore.RemoveInPlace` | src/server/push_notifications/push_notification_store.cpp:183-191 | the swap loop keeps the index exact and leaves the list without the config |
| `PushNotificationStore.TracksOn` | src/server/push_notifications/push_notification_store.cpp:186-189 | each swap keeps every config but the moving one where the index says |
| `PushNotificationStore.UpsertedIsFound` | src/server/push_notifications/push_notification_store.cpp:80-101 | a created config is found again, other ids are untouched, and deleting it gives the list without it |
| `PushNotificationStore.RemovedIsGone` | src/server/push_notifications/push_notification_store.cpp:167-198 | a deleted config is gone and other ids are untouched |
| `PushNotificationStore.TokensEnd` | src/server/push_notifications/push_notification_store.cpp:122-165 | following page tokens ends, after at most one page for each config |
| `PushNotificationStore.TokensCoverTheList` | src/server/push_notifications/push_notification_store.cpp:122-165 | following page tokens with any page size reproduces the list exactly |

## Left out

- Clocks, random bytes, task dedupe rules, access policies, list scopes and event callbacks: parameters, arbitrary in
  every theorem.
- libcurl, sockets, timers and threads: arriving headers and chunks, reported ends, refused adds and failures are
  nondeterministic steps; each transfer has an easy handle of its own.
- SubscriptionTheorems.WaitingReaderCanBeWoken: shows that the steps to waking exist and are enabled, not that a fair
  scheduler takes them, because scheduling is not modelled.
- Subscription sessions: one reader thread each, as the session interface assumes; exceptions thrown inside the
  coroutine and weak pointers that expire without a cancellation are not modelled.
- StreamRuns.ChunksAreHandledInOrder: a stream pins its reactor in the pool, so nothing but owner cancellations is
  queued behind a reactor's shutdown command; completion on a foreign thread after that command is therefore not
  modelled.
- StreamRuns.NothingFollowsCompletion: metadata arrives while the transfer runs; that a transfer which ends without
  complete headers has its metadata queued by the terminal task itself, behind it, is not modelled.
- StreamRuns.TransfersCompleteOnce: excludes the fatal event-wait failure, which leaves the reactor's loop without
  processing its queue.
- CancelHandshake.CancelSilencesTheObserver: takes from the stream machine that callbacks of a stream come one at a time
  and none after completion.
- VisibleTasks.SelectTaskIds: the store and the policy are fixed during the walk.
- CanonicalJson.AppendMembers: starts from the sorted members; the library's sort is not modelled, and any ascending
  arrangement will do (`AnySortWillDo`). The parser's size limit and syntax checks are not part of the model.
- ProtoJSON decoding, base64 and signatures, HTTP headers and errors, discovery, gRPC, PostgreSQL stores, dispatcher and
  interceptors, agent card builder: plumbing or foreign code.
- Projection of tasks in listings: history and artifacts only; metadata and unknown fields are not part of the records.
- Telemetry, and the rollback of a failed append: it serves allocation failures, which are not modelled.
- Push config limits of 32-bit list indices.
