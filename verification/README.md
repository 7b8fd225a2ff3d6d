# ManusClaw verification model

This project models the parts of ManusClaw in which ordering, repair and concurrency decide
correctness, and proves what they keep over every input, every run or every schedule. Code that
works step by step in Python is an imperative method here, proved against a specification
function; the properties are lemmas about those functions. Concurrent code is a step system
whose steps use the same functions as the class methods. `dafny verify dfyconfig.toml` checks
everything.

- **Context view** (`ViewEvents`, `ViewProperties`, `ToolLoops`, `SafeIndices`, `ViewIntegrity`,
  `ViewRemoval`, `ViewOrder`, `View`). The three filters and the four checks, the repair they do together, what
  removal of events needs, and what the manipulation indices offer.
- **Orchestrator** (`TopologicalSort`, `PipelineSchedule`). Kahn's sort on all dependency maps, and
  every schedule of the concurrent stages: safety, deadlock-freedom, bounded length, independence
  of the results from the schedule.
- **Locks** (`Tickets`, `AsyncFifoLock`, `FifoLock`). All interleavings of any number of callers.
- **Event log** (`Ndjson`, `EventLog`, `LogCrashes`). Python's line splitting, the batch text, the
  file-backed log, and crashes between its two file writes.
- **Agent registry** (`Registry`, `RegistryHistory`). The LRU and idle cache against the plain history of uses.
- **Transcripts** (`ChatMemory`, `EventMessages`). The trimming memory and the batching of parallel tool calls.
- **Stuck detector** (`StuckDetector`). The five scans against declarative patterns.

Where the code and its own documentation disagree the model follows the code:

- `BatchAtomicity.enforce` is documented to match a *preceding* assistant but looks at the whole
  list, so a reply placed before its call survives (`ViewIntegrity.EarlyReplySurvives`).
  `ViewIntegrity.EnforceValidIff` is the exact condition, with `ViewIntegrity.NullReplySurvives` for ids that are None.
- Enforcers are documented never to remove index 0; they can (`ViewIntegrity.FirstEventRemoved`, exact condition
  `ViewIntegrity.FirstEventKeptIff`).
- Manipulation indices are documented as removable without violating a property; a tool-calling
  assistant is offered although its replies are not (`ViewRemoval.ManipulationBreaksView`, exact condition
  `ViewRemoval.ManipulationSafeIff`).
- A tool loop is documented as a number of repeats; the code compares the number of *indices*, assistants
  included, with twice the minimum, so that one assistant with five parallel replies is a loop
  (`ToolLoops.OneBatchIsALoop`; all loops: `ToolLoops.LoopsAreMaximalRuns`).
- A dependency outside the pipeline is reported as a cycle (`TopologicalSort.UnknownDependencyRefused`).
  A key outside the pipeline ends in a KeyError exactly when it depends on a role that can be reached
  by doing dependencies first (`TopologicalSort.OutsideKeyRaises`, `TopologicalSort.CycleHidesOutsideKey`).
- `on_stage_error` is accepted but never stored, so a failing role ends its task with an
  AttributeError after its event is set, and awaiting the tasks raises the first one
  (`PipelineSchedule.ReturnsIffAllCompleted`).
- `FIFOLock` frees the lock before the signalled waiter takes it, so a new caller can slip in between
  (`FifoLock.BargingBreaksExclusion`; exact condition `FifoLock.MutualExclusionIff`).
- `AsyncFIFOLock._remove_from_queue` is documented to pass the lock on; it does not
  (`AsyncFifoLock.LateCancelLosesLock`; exact condition `AsyncFifoLock.HeldIffOwnedIff`).
- `EventLog.truncate` is documented to return the number removed and to keep the last events. Emptying a log
  returns 0 (`EventLogs.EmptyingReportsNothing`), and when a crash left the count behind the file the newest
  events are lost uncounted (`LogCrashes.CrashThenTruncate`). `EventLogs.TruncateReportsRemovedIff` is the exact
  condition on any files, `EventLogs.HeldTruncateReportsIff` the one on logs without damage.
- `AgentRegistry` trims to one less than its size before every operation, so a registry of size one
  never hits (`RegistryHistory.SizeOneNeverHits`).
- `Memory._trim` is documented to prevent orphaned tool messages; a trim can drop an assistant
  whose replies are still to come (`ChatMemory.TwoRepliesOrphan`; exact conditions
  `ChatMemory.BatchOwnedIff` and `ChatMemory.RunOwnedIff`).
- `StuckDetector.analyze` never returns when its window holds two actions with no observation between
  them, as parallel tool calls do (`StuckDetector.ScanEndsIff`, `StuckDetector.ParallelActionsDiverge`).

## Model

| member | source | states |
|---|---|---|
| `ViewProperties.BatchCheck` | app/context/view_properties.py:206-221 | The scan accepts exactly the lists in which every tool event answers an id declared by an earlier assistant. |
| `ViewProperties.UniqueCheck` | app/context/view_properties.py:336-343 | The scan accepts exactly the lists in which no two replies share a non-empty id. |
| `ViewProperties.MatchCheck` | app/context/view_properties.py:399-413 | The scan accepts exactly the lists whose declared and answered ids are the same set. |
| `ViewProperties.EnforceBatches` | app/context/view_properties.py:223-274 | Three loops over global id sets compute the batch filter. |
| `ViewProperties.EnforceUnique` | app/context/view_properties.py:345-358 | The loop drops exactly the replies to an id answered earlier. |
| `ViewProperties.EnforceMatching` | app/context/view_properties.py:415-465 | The loops keep answered calls, strip or drop assistants left without calls, and drop undeclared replies; `ViewOrder.MatchedInOrder` says the same by positions. |
| `ViewOrder.BatchesInOrder` | app/context/view_properties.py:223-274 | Batch atomicity returns, in order, the replies to declared ids, the assistants one of whose calls is answered, and every other event. |
| `ViewOrder.UniqueInOrder` | app/context/view_properties.py:345-358 | Observation uniqueness returns, in order, all events but the replies that repeat an earlier reply's id. |
| `ViewOrder.MatchedCallsInOrder` | app/context/view_properties.py:438-443 | The calls kept of an assistant stand at increasing positions, which are exactly those whose id is answered. |
| `ViewOrder.MatchedInOrder` | app/context/view_properties.py:415-465 | Tool-call matching returns, in order, the replies to declared ids, each assistant with its answered calls or, without any, with its content only if it has one, and every other event. |
| `ToolLoops.DetectLoops` | app/context/view_properties.py:527-566 | The loop over three locals computes the detected loops. |
| `ToolLoops.LoopsAreMaximalRuns` | app/context/view_properties.py:527-566 | Reported loops are exactly the maximal runs of one tool name, with their assistants, of at least twice the minimum length: nothing missed, nothing else. |
| `ToolLoops.OneBatchIsALoop` | app/context/view_properties.py:510-519 | One assistant with five replies of one tool is reported as a loop at the default minimum of three pairs. |
| `ToolLoops.LoopShape` | app/context/view_properties.py:527-566 | A reported loop is strictly increasing, in range, made of replies of one tool and assistants standing right before one. |
| `ToolLoops.LoopsDisjoint` | app/context/view_properties.py:527-566 | Reported loops come in order and share no index. |
| `ToolLoops.LoopCheck` | app/context/view_properties.py:568-581 | The check decides whether some reported loop mixes tool names. |
| `ToolLoops.LoopCheckAlwaysPasses` | app/context/view_properties.py:568-606 | Tool-loop atomicity holds of every list, whatever the minimum length. |
| `ViewIntegrity.EnforcedIsCanonical` | app/context/view.py:210-228 | The filters run in sequence, each with id sets of its own input, equal one declarative pass over the original list. |
| `ViewIntegrity.EnforceValidIff` | app/context/view.py:210-244 | For every event list, empty and None ids included: after enforcement all four checks pass exactly when every reply whose id is declared anywhere follows a declaration, and no reply without a usable id meets a call that keeps it alive. |
| `ViewIntegrity.EnforceKeeps` | app/context/view_properties.py:223-465 | Enforcement keeps exactly the ids both declared and answered, all standalone events in order, and of the replies exactly the first one per kept id. |
| `ViewOrder.EnforcedInOrder` | app/context/view.py:210-228 | Enforcement leaves exactly the surviving events, in order: each is the event at its position with nothing changed but, of an assistant, the calls, which are its answered ones in their order. |
| `ViewIntegrity.EnforceIdempotentIff` | app/context/view.py:210-228 | Enforcing twice equals enforcing once exactly when no reply without a usable id is kept alive. |
| `ViewIntegrity.EarlyReplySurvives` | app/context/view_properties.py:234-256 | A concrete list that enforcement leaves invalid. |
| `ViewIntegrity.NullReplySurvives` | app/context/view_properties.py:127-131 | A call dict whose id is None keeps a reply without id through batch atomicity and is then stripped: a concrete list that enforcement leaves invalid. |
| `ViewIntegrity.FirstEventRemoved` | app/context/view_properties.py:167-174 | A concrete list whose first event enforcement removes. |
| `ViewIntegrity.FirstEventKeptIff` | app/context/view_properties.py:167-174 | Exactly when the first event survives enforcement. |
| `SafeIndices.BatchSafeIndices` | app/context/view_properties.py:276-322 | The batch map and its groups yield exactly the standalone events, last heads of an id, and replies after the last head of their id. |
| `SafeIndices.UniqueSafeIndices` | app/context/view_properties.py:360-382 | Every index past 0 but the first reply to each id. |
| `SafeIndices.MatchSafeIndices` | app/context/view_properties.py:467-503 | Standalone events and, for every id both declared and answered past index 0, its last head and last reply. |
| `SafeIndices.LoopSafeIndices` | app/context/view_properties.py:608-630 | Every index past 0. |
| `ViewRemoval.EveryRemovalValidIff` | app/context/view.py:159-206 | From a valid view, removal with enforcement gives a valid view for every index set exactly when no id is declared again after a reply to it. |
| `ViewRemoval.DeclaredOnceOrdered` | app/context/view_properties.py:206-221 | Declaring each id once is enough for that condition. |
| `ViewRemoval.RemovalValidIff` | app/context/view_properties.py:191-204 | From any valid view a removal without enforcement leaves a valid view exactly when it takes every declaration of an id whose reply it takes, and leaves one before each reply it leaves. |
| `ViewRemoval.WholeBatchesValidIff` | app/context/view_properties.py:191-204 | With ids declared once: exactly when it takes whole batches and standalone events. |
| `ViewRemoval.ClosedRemovalFixed` | app/context/view.py:172-183 | After removing any mix of whole batches and standalone events every enforcer is the identity. |
| `ViewOrder.RemovedInOrder` | app/context/view.py:172-183 | Removing indices leaves the events at all other positions, in order. |
| `ViewRemoval.ManipulableIff` | app/context/view.py:105-139 | In any valid view the manipulation indices are exactly the positions past the protected prefix that hold a standalone event or the last assistant to declare some id; never a reply. |
| `ViewRemoval.ManipulationSafeIff` | app/context/view.py:105-139 | From any valid view, removing manipulation indices needs no repair exactly when every id of a removed assistant is still declared by a kept one before its reply. |
| `ViewRemoval.ManipulationSafeOnceIff` | app/context/view.py:105-139 | With ids declared once: exactly when no tool-calling assistant is removed. |
| `ViewRemoval.ManipulationBreaksView` | app/context/view.py:105-139 | A concrete valid view that removing one offered index makes invalid. |
| `ContextView.View.constructor` | app/context/view.py:52-66 | A new view has the given events and prefix, and the default properties when given none. |
| `ContextView.View.ManipulationIndices` | app/context/view.py:105-139 | Cached or not, the answer is the freshly computed intersection, at or above the protected prefix. |
| `ContextView.View.Add` | app/context/view.py:143-149 | The event is appended and the cache stays truthful. |
| `ContextView.View.AddEvents` | app/context/view.py:151-157 | The events are appended and the cache stays truthful. |
| `ContextView.View.SetKeepFirst` | app/context/view.py:85-89 | The prefix is set, at least 0, and the cache stays truthful. |
| `ContextView.View.EnforceProperties` | app/context/view.py:210-228 | The registered enforcers are applied in order; with the defaults the result is valid under the exact condition above. |
| `ContextView.View.RemoveIndices` | app/context/view.py:159-183 | This view is untouched; the new one holds the enforced remainder, and is valid when this one is and declares no id after its reply. |
| `ContextView.View.RemoveEventIds` | app/context/view.py:185-206 | The same for removal by event id. |
| `ContextView.View.IsValid` | app/context/view.py:230-244 | The verdict is the conjunction of the registered checks, although results are keyed by property name. |
| `ContextView.DefaultView` | app/context/view_properties.py:642-647 | For the default property list these are the checks, steps and indices of the theorems above. |
| `TopologicalSort.TopologicalSort` | app/agent/orchestrator.py:205-230 | For a pipeline without repeats: it returns exactly when dependencies stay inside the pipeline both ways and are acyclic, and then a topological order; it ends in a KeyError, naming such a key, exactly when a key outside the pipeline depends on a role that can be reached; otherwise in a cycle error, and then pipeline roles have outside dependencies or a cycle. |
| `TopologicalSort.BuildDependents` | app/agent/orchestrator.py:209-214 | The reverse lists hold each dependent once per occurrence of the dependency. |
| `TopologicalSort.StartableTaken` | app/agent/orchestrator.py:216-222 | When the queue runs dry every role that some partial order reaches has been taken. |
| `TopologicalSort.StalledHasCycle` | app/agent/orchestrator.py:224-228 | When the queue runs dry early although roles depend on pipeline roles only, there is a cycle. |
| `TopologicalSort.OrderedIsAcyclic` | app/agent/orchestrator.py:216-230 | A topological order excludes every cycle. |
| `TopologicalSort.OrderExists` | app/agent/orchestrator.py:205-230 | Closed acyclic dependencies have a topological order. |
| `TopologicalSort.UnknownDependencyRefused` | app/agent/orchestrator.py:206-228 | A concrete acyclic input on which the only possible verdict is the cycle error. |
| `TopologicalSort.OutsideKeyRaises` | app/agent/orchestrator.py:211-220 | A concrete input on which the only possible verdict is the KeyError. |
| `TopologicalSort.CycleHidesOutsideKey` | app/agent/orchestrator.py:211-228 | With a cycle in front of it the same key goes unnoticed: the only verdict is the cycle error. |
| `PipelineSchedule.BuildRoleInput` | app/agent/orchestrator.py:256-264 | The loop builds the goal and one section per upstream result; `PipelineSchedule.RoleInputReads` is its text. |
| `PipelineSchedule.RoleInputReads` | app/agent/orchestrator.py:256-264 | The input is the goal alone without upstream roles, and otherwise the headed goal followed, for each upstream role with a result, in order, by two line breaks, its heading and at most 3000 characters of the result, and nothing else. |
| `PipelineSchedule.InputQuotes` | app/agent/orchestrator.py:256-264 | The input contains, for every upstream role that has a result, its heading and the result, whole up to 3000 characters and cut there if longer, followed by the next section or the end. |
| `PipelineSchedule.StartSeesUpstreams` | app/agent/orchestrator.py:125-135 | On every schedule a role starts only after every pipeline role it depends on has set its event and stored its result, and its input quotes the first 3000 characters of each. |
| `PipelineSchedule.InputStaysCurrent` | app/agent/orchestrator.py:134-140 | The input a role got is the one the final results of its upstreams determine. |
| `PipelineSchedule.ResultIsOutcome` | app/agent/orchestrator.py:137-170 | In every run the stored result of a role whose body has ended is from then on its output, or "ERROR: " and the text of its exception, and its stage says the same and whether it completed. |
| `PipelineSchedule.StagesAreTopological` | app/agent/orchestrator.py:149-172 | When all roles have finished the stage list is a topological order. |
| `PipelineSchedule.RaisesIffTaskRaised` | app/agent/orchestrator.py:174-175 | On every schedule, awaiting the tasks raises exactly when some task has ended with an exception, and with that of such a task. |
| `PipelineSchedule.RaisesFirstError` | app/agent/orchestrator.py:157-175 | While no role was unbuildable, what is raised belongs to the first stage in the list that failed. |
| `PipelineSchedule.ReturnsIffAllCompleted` | app/agent/orchestrator.py:157-175 | A run in which every role has finished returns normally exactly when every stage completed, exactly when every task returned, and otherwise raises for the first failed stage of the list. |
| `PipelineSchedule.NoDeadlock` | app/agent/orchestrator.py:122-175 | While a role is unfinished some role can step, unless a role that cannot be built was reached. |
| `PipelineSchedule.SchedulesAreBounded` | app/agent/orchestrator.py:122-175 | Every schedule is finite, with a bound fixed by its first state. |
| `PipelineSchedule.CanFinish` | app/agent/orchestrator.py:122-175 | From any state of any schedule the pipeline can be run to the end. |
| `PipelineSchedule.CycleNeverStarts` | app/agent/orchestrator.py:125-129 | No role on a dependency cycle ever starts. |
| `PipelineSchedule.FinishesIffAcyclic` | app/agent/orchestrator.py:122-175 | Some schedule finishes exactly when the dependencies have no cycle. |
| `PipelineSchedule.ScheduleIndependent` | app/agent/orchestrator.py:122-175 | When role bodies are functions of their inputs, all finished schedules store the same results. |
| `AsyncFifoLock.AsyncFIFOLock.Acquire` | app/conversation/fifo_lock.py:191-207 | Up to the await: take the free lock, or enqueue a new pending future. |
| `AsyncFifoLock.AsyncFIFOLock.Release` | app/conversation/fifo_lock.py:218-236 | Done waiters are skipped, the first pending one is resolved and inherits the held flag; an unheld lock raises. |
| `AsyncFifoLock.AsyncFIFOLock.RemoveFromQueue` | app/conversation/fifo_lock.py:238-249 | The future leaves the queue; nothing else changes. |
| `AsyncFifoLock.MutualExclusion` | app/conversation/fifo_lock.py:191-236 | In every interleaving at most one coroutine holds or has been granted the lock. |
| `AsyncFifoLock.FirstComeFirstServed` | app/conversation/fifo_lock.py:171-178 | Grants follow the order of the acquire calls among the uncancelled. |
| `AsyncFifoLock.ReleaseServesOldest` | app/conversation/fifo_lock.py:230-236 | A release grants the longest waiting coroutine. |
| `AsyncFifoLock.HeldIffOwnedIff` | app/conversation/fifo_lock.py:209-216 | The held flag always has an owner behind it exactly in the runs without a cancellation between grant and resumption. |
| `AsyncFifoLock.LostForever` | app/conversation/fifo_lock.py:209-249 | After such a cancellation nothing is ever granted again. |
| `AsyncFifoLock.LateCancelLosesLock` | app/conversation/fifo_lock.py:209-249 | A concrete run that loses the lock. |
| `FifoLock.FIFOLock.TakeOrEnqueue` | app/conversation/fifo_lock.py:88-97 | Fast path, or the event joins the queue. |
| `FifoLock.FIFOLock.Withdraw` | app/conversation/fifo_lock.py:102-112 | After a timeout the event leaves the queue, or turns out to have been dequeued. |
| `FifoLock.FIFOLock.Claim` | app/conversation/fifo_lock.py:114-118 | The signalled thread marks the lock as its own, unconditionally. |
| `FifoLock.FIFOLock.Release` | app/conversation/fifo_lock.py:120-137 | The lock is freed and the head of the queue signalled; an unheld lock raises. |
| `FifoLock.SignalsInOrder` | app/conversation/fifo_lock.py:48-55 | Signals go out in enqueue order, skipping only calls refused for a timeout. |
| `FifoLock.SignalNotLost` | app/conversation/fifo_lock.py:99-112 | A signalled call is never refused, in any continuation. |
| `FifoLock.SomeoneWillRelease` | app/conversation/fifo_lock.py:127-137 | While anyone waits, some thread holds the lock or has been signalled. |
| `FifoLock.RunsFromTheStart` | app/conversation/fifo_lock.py:88-137 | Every state of a run has one owner at most exactly when no call takes the free lock while a signalled thread is on its way. |
| `FifoLock.MutualExclusionIff` | app/conversation/fifo_lock.py:88-137 | The same from any state with one owner. |
| `FifoLock.TwoOwnersCanBothHold` | app/conversation/fifo_lock.py:114-118 | Two owners can always be scheduled to hold the lock at once. |
| `FifoLock.BargingBreaksExclusion` | app/conversation/fifo_lock.py:88-137 | A concrete run in which two threads hold the lock. |
| `FifoLock.ReleaseNeverRaises` | app/conversation/fifo_lock.py:127-129 | With one owner a holder's release never raises. |
| `FifoLock.OwnerHolds` | app/conversation/fifo_lock.py:88-137 | In every run the lock is marked held exactly while it records an owner and a hold count of one, and that owner is a thread that holds it. |
| `FifoLock.NewHolderIsOwner` | app/conversation/fifo_lock.py:88-118 | The thread that comes to hold the lock is the one recorded. |
| `Ndjson.SerializeBatch` | app/events/serialization.py:157-176 | The text is each event's line with a newline, or the first event that cannot be printed. |
| `Ndjson.DeserializeBatch` | app/events/serialization.py:179-212 | Non-blank lines are decoded in order and undecodable ones skipped; the four lemmas below say by positions which those are. |
| `Ndjson.SplitLinesIs` | app/events/serialization.py:202 | Any text is its lines, each followed by one break, the last perhaps by none; no line holds a break, and a carriage return with its line feed is one. |
| `Ndjson.StripOf` | app/events/serialization.py:203 | Stripping takes exactly the space around a text. |
| `Ndjson.NonBlankInOrder` | app/events/serialization.py:203-205 | The lines kept are those that are not all space, each once and in order. |
| `Ndjson.DecodeInOrder` | app/events/serialization.py:206-212 | The events read are those of the lines that decode, each once and in order. |
| `Ndjson.BatchRoundTrip` | app/events/serialization.py:157-212 | Reading a printed batch gives the batch back. |
| `Ndjson.BatchConcat` | app/events/serialization.py:157-176 | The text of a concatenation is the concatenation of the texts. |
| `EventLogs.EventLog.constructor` | app/events/event_log.py:131-132 | Opening any files takes the count from the count file, 0 without one. |
| `EventLogs.EventLog.Append` | app/events/event_log.py:459-495 | On any files: the printed event goes behind what the log holds and the count and count file grow by one, or, when it cannot be printed, nothing changes. |
| `EventLogs.EventLog.AppendBatch` | app/events/event_log.py:203-248 | On any files: all events are added, or none; the ids come back in order. |
| `EventLogs.AppendedLines` | app/events/event_log.py:545-585 | Behind any text that ends its last line, damaged or not, an append adds exactly the lines of its events. |
| `EventLogs.AppendedEntry` | app/events/event_log.py:254-282 | What the newest index then gives: the appended event when the count agreed with the file, else what stood there before. |
| `EventLogs.EventLog.ReadRange` | app/events/event_log.py:723-760 | On any files: the events among the entries of the range, every corrupt line counted and missing ones passed over. |
| `EventLogs.EventLog.Get` | app/events/event_log.py:254-282 | On any files: Python indexing over the counted entries, negative indices included; an IndexError outside them and for an entry that is corrupt or missing. |
| `EventLogs.EventLog.GetRange` | app/events/event_log.py:284-312 | On any files: the events of the Python slice of the counted entries, for all positive, negative and missing bounds. |
| `EventLogs.EventLog.GetAll` | app/events/event_log.py:314-319 | On any files: the events among the counted entries. |
| `EventLogs.EventLog.GetLast` | app/events/event_log.py:321-333 | On any files: the events of the slice of the counted entries from -n, and nothing for n at most 0. |
| `EventLogs.SliceIs` | app/events/event_log.py:284-333 | A slice is what lies between the positions its bounds fall at: counted from the front, from the end if negative, and cut to the length; nothing when they cross. |
| `EventLogs.KnownLine` | app/events/event_log.py:723-760 | On any log a line is read without the space around it, and is corrupt exactly when the rest does not decode. |
| `EventLogs.EventsInOrder` | app/events/event_log.py:751-760 | The events read are those of the entries that hold one, each once and in order. |
| `EventLogs.HeldSlice` | app/events/event_log.py:284-333 | Of a log of printed events every such slice is the Python slice of the counted events, with no line skipped. |
| `EventLogs.HeldAppend` | app/events/event_log.py:459-479 | Appending keeps such a log, with its events extended. |
| `EventLogs.EventLog.Reindex` | app/events/event_log.py:387-401 | On any files, count and count file become the number of non-blank lines. |
| `EventLogs.ReindexCounts` | app/events/event_log.py:387-401 | On any files the new count, stored too, is the number of lines that are not all space. |
| `EventLogs.HeldReindex` | app/events/event_log.py:387-401 | Of a log of printed events the count is then the number of events, whatever it was. |
| `EventLogs.EventLog.Truncate` | app/events/event_log.py:403-440 | On any files: what is left, the new count and the returned number for every argument, or nothing changes when a kept event cannot be printed; the rows below say what that means. |
| `EventLogs.TruncateCounts` | app/events/event_log.py:412-440 | On any files: when something is to be truncated the count and the number in the count file both become the number to keep, 0 for none; otherwise nothing changes. |
| `EventLogs.EmptiedStartsAfresh` | app/events/event_log.py:419-424 | Emptying any log, whatever its lines and counts, leaves the log of no event with count and count file 0, and an event appended next is the one that indices 0 and -1 give. |
| `EventLogs.TruncateKeepsLast` | app/events/event_log.py:426-440 | Of a log of printed events, keeping k leaves the last k that the count covers, with k as count and in the count file: the last k of all when the count is in step, otherwise those past the count are lost. |
| `EventLogs.LaggingTruncateLosesNewest` | app/events/event_log.py:426-440 | With a count one behind, keeping one of three events leaves the middle one and returns 1. |
| `EventLogs.TruncateReportsRemovedIff` | app/events/event_log.py:412-440 | On any files: the returned number is the number of lines that left exactly when nothing was to be truncated, or an empty log was emptied, or the count was not behind the file, every missing entry was among the kept, and none of those was corrupt. |
| `EventLogs.HeldTruncateReportsIff` | app/events/event_log.py:412-440 | On a log of printed events: exactly when nothing was to be truncated, there was nothing, or some are kept and the count covers all. |
| `EventLogs.EmptyingReportsNothing` | app/events/event_log.py:419-424 | Emptying a log, whatever its lines, returns 0. |
| `LogCrashes.LogIsCommitted` | app/events/event_log.py:545-585 | In every run with crashes and restarts the log is exactly the committed events in order, each batch whole, and reads back as such. |
| `LogCrashes.CountBehindLog` | app/events/event_log.py:236-241 | The stored count never exceeds the lines and falls short by exactly the events cut off between the two writes since the last reindex. |
| `LogCrashes.ReindexRepairs` | app/events/event_log.py:387-401 | After a reindex count, count file and lines agree. |
| `LogCrashes.StepsAreOperations` | app/events/event_log.py:203-248 | Both writes of an append, a reindex and an opening leave exactly the files that the methods of the log leave. |
| `LogCrashes.RestingLogHolds` | app/events/event_log.py:545-585 | In every run a process at rest has a log of exactly the committed events, its count behind by those lost. |
| `LogCrashes.CrashThenTruncate` | app/events/event_log.py:403-440 | A concrete run with one crash after which keeping the last event keeps another and reports the wrong number. |
| `Registry.AgentRegistry.Get` | app/agent/router.py:134-144 | Evict, look up, and on a hit make the key the most recent; a size below one raises. |
| `Registry.AgentRegistry.Put` | app/agent/router.py:146-157 | Evict and make the key, with its agent, the most recent. |
| `Registry.AgentRegistry.Remove` | app/agent/router.py:159-163 | The key leaves both dicts and its agent is returned. |
| `Registry.AgentRegistry.EvictIdle` | app/agent/router.py:180-204 | Exactly the entries idle beyond the limit leave both dicts. |
| `Registry.LiveInOrder` | app/agent/router.py:188-194 | The entries left are those used at most the limit ago, in dict order, also when the clock went back. |
| `Registry.AgentRegistry.EvictLru` | app/agent/router.py:206-219 | Exactly the oldest entries leave until fewer than the size remain; a size below one raises. |
| `RegistryHistory.GetHitsIffFresh` | app/agent/router.py:134-144 | A get hits exactly when the key's last use is at most the limit ago and fewer than size - 1 other keys were used since. |
| `RegistryHistory.HitReturnsLatestPut` | app/agent/router.py:134-157 | A hit returns the agent of the latest put for the key. |
| `RegistryHistory.CacheBoundedAndOrdered` | app/agent/router.py:119-157 | In every run the size stays within the limit and dict order is last-use order. |
| `RegistryHistory.SizeOneNeverHits` | app/agent/router.py:206-208 | With size one no get ever hits. |
| `ChatMemory.Memory.Add` | app/schema.py:101-103 | Append, then trim. |
| `ChatMemory.Memory.Trim` | app/schema.py:105-126 | The two trimming loops compute the trimmed list. |
| `ChatMemory.TrimmedIs` | app/schema.py:105-126 | A list that fits is unchanged; otherwise the system messages stay and, of the last others that fit, all but the replies in front and then the assistants in front that no reply follows. |
| `ChatMemory.KeepsLatest` | app/schema.py:101-126 | In every run all system messages stay in order, the others kept are the latest added, and the size is bounded. |
| `ChatMemory.AddOrphansIff` | app/schema.py:105-126 | An add leaves a reply without its assistant exactly when it adds a reply while nothing else is kept and there is room. |
| `ChatMemory.RunOwnedIff` | app/schema.py:101-126 | Over every run whose messages are in order, no reply is ever kept without its assistant exactly when none is added while nothing else is kept and there is room. |
| `ChatMemory.RunOfAdds` | app/schema.py:101-126 | Adding messages other than system messages to any run trims the rest, one by one, to the room the run's system messages leave. |
| `ChatMemory.BatchOwnedIff` | app/schema.py:115-126 | After any run without orphans, adding one batch never leaves a reply without its assistant exactly when there is no room, or no reply, or the assistant survives its own trim and the replies number at most the room. |
| `ChatMemory.TwoRepliesOrphan` | app/schema.py:115-126 | After any run that keeps nothing and leaves room for one message, two parallel replies already leave an orphan. |
| `ChatMemory.RepliesKeepTheirAssistants` | app/schema.py:101-126 | Over every run whose batches are answered at once and shorter than the room left by the system messages, every reply kept has its assistant kept, at every moment. |
| `EventMessages.EventsToMessages` | app/events/base.py:147-198 | The nested loops equal grouping into runs of one response; the rows below say what the messages hold. |
| `EventMessages.EventPlaced` | app/events/base.py:147-198 | Every event has its place: an action's call stands at its offset in its run's assistant message, a single action keeps its text, and every other event is a whole message with the role, content, call id and tool name of its kind. |
| `EventMessages.CallTraced` | app/events/base.py:166-186 | Every call of every message comes from the action at that offset of the run in that slot, so that a run's message has no other calls. |
| `EventMessages.TextPlaced` | app/events/base.py:174-183 | The message of a run has the text of the first of its actions whose text is not empty, and none when none has. |
| `EventMessages.ConvertLength` | app/events/base.py:147-198 | There is one message per run and per other event. |
| `EventMessages.CallsConserved` | app/events/base.py:166-186 | The calls of the messages, in order, are the calls of the actions, in order. |
| `EventMessages.OrderKeptIff` | app/events/base.py:128-145 | Tool messages follow the message declaring their call exactly when result events follow their actions. |
| `StuckDetector.CollectPairs` | app/conversation/stuck_detector.py:289-310 | The pair scan collects each action's digest with that of its first following observation, or never ends. |
| `StuckDetector.PairsAre` | app/conversation/stuck_detector.py:289-310 | The pairs are those of all actions, each once and in order, and pair an action with the first observation after it, or with nothing. |
| `StuckDetector.CollectErrors` | app/conversation/stuck_detector.py:348-374 | The error scan collects the pairs whose first observation failed, or never ends. |
| `StuckDetector.ErrorsAre` | app/conversation/stuck_detector.py:348-374 | The errors are those of the actions whose first observation failed with a digest, each once and in order. |
| `StuckDetector.ScanEndsIff` | app/conversation/stuck_detector.py:291-310 | The outer loop reaches the end exactly when any two actions have an observation between them. |
| `StuckDetector.CheckMonologue` | app/conversation/stuck_detector.py:409-440 | Some stretch without a user message holds the threshold number of countable events. |
| `StuckDetector.MonologueIff` | app/conversation/stuck_detector.py:409-440 | The same by positions: a stretch without a message whose source or role is the user's, with that many actions, observations and messages. |
| `StuckDetector.CheckAlternating` | app/conversation/stuck_detector.py:453-492 | The last actions alternate between two different digests; `StuckDetector.AlternatesIff` says it by positions. |
| `StuckDetector.DigestsAre` | app/conversation/stuck_detector.py:454-457 | The digests are those of all actions, each once and in order. |
| `StuckDetector.AlternatesIff` | app/conversation/stuck_detector.py:459-475 | For every threshold, counted from the end: twice the threshold digests exist, at least four, the last two differ, and each of them equals the one two places on. |
| `StuckDetector.CheckContextErrors` | app/conversation/stuck_detector.py:496-527 | The number of context-window errors reaches the threshold. |
| `StuckDetector.KeywordIff` | app/conversation/stuck_detector.py:178-183 | A text counts exactly when one of the eight keywords stands in it somewhere. |
| `StuckDetector.ContextErrorsAre` | app/conversation/stuck_detector.py:505-508 | The number is that of the positions holding a condensation request or an error with a keyword. |
| `StuckDetector.Analyze` | app/conversation/stuck_detector.py:231-275 | The first of the five patterns, in priority order, that holds of the window is reported; the call does not return exactly on windows where the scans never end. |
| `StuckDetector.OnlyTheTailCounts` | app/conversation/stuck_detector.py:248 | The verdict on any events is the one on the last window-size of them, whatever comes before; a size of zero looks at all, a negative one passes over that many in front. |
| `StuckDetector.SmallWindow` | app/conversation/stuck_detector.py:248 | With no more events than the window size all of them are looked at. |
| `StuckDetector.RepeatsIff` | app/conversation/stuck_detector.py:312-317 | For every threshold, counted from the end: the last threshold pairs, or errors, exist and are equal, and the pairs are not empty ones. |
| `StuckDetector.ReportedIff` | app/conversation/stuck_detector.py:250-275 | A pattern is reported exactly when it holds and none before it in the order of priority does; none exactly when none holds. |
| `StuckDetector.ParallelActionsDiverge` | app/conversation/stuck_detector.py:297-305 | Two actions in a row are enough for the scan to stand still for ever. |

## Left out

- Validation by Pydantic, JSON encoding, file encodings and digests: call ids are strings or None, and event codecs, digests, case folding and role headings are parameters; the codec laws used are stated in `Ndjson.CodecOk`.
- EventLogs.EventLog: the count file holds a number rather than its decimal text, and an unreadable one counts as missing; byte counters, timestamps, the metadata file and the soft size limit are not modelled.
- LogCrashes.LogIsCommitted: covers logs below 64 MB, which are replaced atomically; the direct append above that size and a crash inside `truncate` are not modelled.
- PipelineSchedule.StartSeesUpstreams: the timeout, database logging and hooks are not modelled; logging is assumed not to raise, and a role that fails is an arbitrary error text. A role listed twice in the pipeline would be one task here.
- RegistryHistory.GetHitsIffFresh: histories without `remove`; an evicted key is not brought back by removing a newer one, so the rule would need the evictions themselves. `cleanup` of evicted agents is not modelled.
- AsyncFifoLock.MutualExclusion: releases by coroutines that do not hold the lock are not modelled; likewise for threads in `FifoLock`.
- ContextView.View.RemoveIndices: the internal thread lock, event metadata and the conversion to messages are not modelled; a reply list in the batch map is a set, since only membership is used.
- ChatMemory.BatchOwnedIff: is about one batch during which no system message is added; over whole transcripts `ChatMemory.RunOwnedIff` gives the exact condition and `ChatMemory.RepliesKeepTheirAssistants` a sufficient one on the transcript alone.
- StuckDetector.Analyze: confidence values, texts and metadata of the report are not modelled; a scan that never ends is reported as the verdict `Diverges`.
- `TaskQueue`, `SessionDB`, `ConversationState`, stores, clients, tools, canvas, CLI and UI: input and output, or easy members only.
