# Verified model of Envoy's server core and of the rate limit service

This project models the parts of two systems that carry state from one event to the next, and proves
what their authors rely on: the Envoy server's listener life cycle across threads, its hot restart
protocol with the shared statistics slots, the distributed rate limiter, the Base64 codec, the guard
dog and the watermark buffer. `dafny verify dfyconfig.toml` checks all of it.

## How the model is built

State machines are values: a state datatype, a function for each operation, a `Step` datatype, and
statements about arbitrary finite runs. Where the source is a class whose methods update fields, there
is a class with those fields and loops whose methods are proved to make exactly the transition of the
function, so that the run theorems speak about the code's own form.

### Listeners (`listener_*.dfy`, `lds_api.dfy`, `init_manager.dfy`, `drain_manager.dfy`, `connection_handler.dfy`)

The main thread owns the active, warming and draining lists. Each worker has a FIFO queue of tasks (add,
stop, remove, stop all) and a connection handler; completions come back through main's own FIFO queue. A
listener object is a tag that is never used twice. A run interleaves configuration, init targets, drain
ticks, worker tasks and completions in any order. The invariant (`listener_safety.dfy`) says, for each
listener and each worker, which tasks may be queued, which completions may be unhandled and whether the
handler has an entry. Everything else is read off from it: no reference outlives its object, drain counts
are exact, names stay unique, the statistics add up. `listener_service.dfy` adds what the workers do for the
lists: every active listener is or will be served, a stopped one is not. `listener_gap.dfy` adds that a
replacement leaves no moment without an accepting version, `listener_progress.dfy` that everything ends in
erasure, and `listener_updates.dfy` tells the outcome of an add or update by the members of the lists.

Workers post their completion to main after the handler has changed; posting is FIFO and each dispatcher
runs one closure at a time. Draining needs started workers and a drain time of at least one tick, as the
source asserts. The model's `uuid`, bound address and inline targets are inputs of the step.

An update from the discovery service does not remove a listener that is still warming and missing from
the update, since it only compares with the active list. `OnConfigUpdate` states exactly which names are
left.

### Hot restart (`hot_restart_*.dfy`, `stat_slots.dfy`)

A chain of processes, one an epoch, shares one flag and one lock, and talks over datagram sockets whose
names repeat modulo 3. A process is in its event loop or blocked in one of three typed receives; messages
carry the epochs they are meant for, so that misrouting can be stated. A process ends only through a
terminate request, and the runner counts epochs up by one.

Three statements are about where the guarantees end. A listen socket can be duplicated after start-up, since
a later discovery update may add a listener. Such a process can read its child's request in place of its
reply, unless it has no parent to ask any more, or it has no child and the flag keeps one from starting.
`LateDuplicationExactly` shows that this condition is exact; all theorems about runs cover the duplications
during start-up and those that meet it. A bind that fails after the INITIALIZING test leaves the flag set
for good. The comment at `hot_restart_impl.cc:78-82` advises to try again after the refusal that a set flag
causes; after a failed bind that refusal is all that any later attempt gets. A slot that was allocated
under an empty name counts as free, and a reference count of 65535 wraps; `AllocKeepsIndex` gives the exact
condition.

### Rate limiter (`rate_*.dfy`)

The store is a map of counters with deadlines; commands of any number of instances execute in the order
of one shared clock, interleaved in any way, also between the two commands of one call. Arithmetic on
counters is 32 bits wide, as in the source; `TruncatedCode` says exactly when the code survives the
truncation, `TruncatedVerdict` when the whole verdict with its statistics does. The near threshold is any
function whose value does not exceed the limit. Replies are an arbitrary sequence, with errors anywhere.
`rate_limiter.dfy` puts the pieces together: all instances, all their calls, one history.

### Base64, guard dog, watermark buffer (`base64.dfy`, `guarddog*.dfy`, `watermark_buffer.dfy`)

Base64 is stated against a group-wise definition after section 4 of RFC 4648 with the pad-bit rule of its
section 3.5. The decoder indexes its table of 256 entries by a `char` that is widened to 32 bits; where
`char` is signed, as on x86-64, a byte from 128 on gives an index far outside. The model has this as an
outcome of its own, and `ReadsOutOfRangeExactly` says which texts cause it.

The guard dog's counters are stated per touch time of one dog, and then over whole runs as sums over all
dogs that were ever created. A scan reads each touch time once, and threads may touch their dogs during a
scan, so that a run gives every scan the touch times it sees. The watermark buffer is stated over any
number of buffers that move bytes between each other. With a low mark of zero, which a single watermark
of one gives, a buffer that went above never comes back by draining; `DrainReachesLow` is the exact
condition.

## Model

| member | source | states |
|---|---|---|
| ListenerTheorems.NoDanglingReference | envoy/envoy/source/server/listener_manager_impl.cc:300-387 | In every state of every run, a listener that any queued worker task, posted completion or handler entry mentions is still owned by the active or the draining list. |
| ListenerTheorems.DestroyedIsUnmentioned | envoy/envoy/source/server/listener_manager_impl.cc:300-335 | The step that ends the ownership of a listener object, whichever it is, leaves nothing anywhere that mentions it. |
| ListenerTheorems.ConfirmationFindsEntry | envoy/envoy/source/server/listener_manager_impl.cc:326-332 | A removal confirmation that main handles always finds its draining entry, after the last tick, with a count of at least one: the counter never underflows. |
| ListenerTheorems.ErasedByLastConfirmation | envoy/envoy/source/server/listener_manager_impl.cc:317-335 | A draining listener is erased only by the confirmation of the last outstanding worker; by then no worker has a task or an entry for it and main has handled every earlier completion about it. |
| ListenerTheorems.DrainingKept | envoy/envoy/source/server/listener_manager_impl.cc:300-335 | Every other step keeps a draining listener on the draining list. |
| ListenerInvariant.InvStep | envoy/envoy/source/server/listener_manager_impl.cc:173-458 | Every step of the main thread, of a worker, of a drain timer or of an init target keeps the whole invariant: ownership, queue order, drain counts, names and statistics. |
| ListenerInvariant.InvRun | envoy/envoy/source/server/listener_manager_impl.cc:173-458 | The invariant holds in every state of every run. |
| ListenerInvariant.InvInit | envoy/envoy/source/server/listener_manager_impl.cc:158-165 | It holds before the first step. |
| ListenerSafety.PipelineWorker | envoy/envoy/source/server/worker_impl.cc:35-42 | Running the oldest task of a queue keeps the per-listener order of add, stop, remove and their confirmations. |
| ListenerQueues.WorkerCore | envoy/envoy/source/server/worker_impl.cc:30-43 | A worker that runs its oldest task, whether an add succeeds or throws, keeps the invariant. |
| ListenerQueues.TickCore | envoy/envoy/source/server/drain_manager_impl.cc:39-49 | A drain tick keeps the invariant; the last one posts the removals and makes the pending count the number of outstanding workers. |
| ListenerQueues.RemoveDoneCounts | envoy/envoy/source/server/listener_manager_impl.cc:326-332 | At a confirmation the pending count equals the number of workers whose removal is queued or whose confirmation is unhandled, which is at least one. |
| ListenerWarm.WarmedCore | envoy/envoy/source/server/listener_manager_impl.cc:389-408 | Promoting a warming listener keeps the invariant and the set of managed names. |
| ListenerWarm.WarmedIsFoundByName | envoy/envoy/source/server/listener_manager_impl.cc:396-398 | The warming listener that the name search finds is the very one that finished warming. |
| ListenerWarm.RemoveCore | envoy/envoy/source/server/listener_manager_impl.cc:419-445 | Removing a name keeps the invariant; the removed count and the names go down together. |
| ListenerInvariant.AddOrUpdateInv | envoy/envoy/source/server/listener_manager_impl.cc:173-288 | Adding or updating keeps the invariant on every path, the three that throw included. |
| ListenerInvariant.PlaceNamed | envoy/envoy/source/server/listener_manager_impl.cc:215-277 | Placing a new version adds its name and no other, keeps names unique in both lists, and counts as an addition exactly when the name was not managed. |
| ListenerInvariant.ChosenSocketShared | envoy/envoy/source/server/listener_manager_impl.cc:220-267 | The socket of a new version is the one that every version of its name already has. |
| ListenerInvariant.StartCore | envoy/envoy/source/server/listener_manager_impl.cc:447-458 | Starting the workers keeps the invariant. |
| ListenerInvariant.StopAllCore | envoy/envoy/source/server/listener_manager_impl.cc:460-464 | A server-wide stop keeps the invariant. |
| ListenerQueues.AddFailureCore | envoy/envoy/source/server/listener_manager_impl.cc:376-380 | Noting the first failed add of a listener, before anything is removed, keeps the invariant. |
| ListenerQueues.AddRemovalCore | envoy/envoy/source/server/listener_manager_impl.cc:363-387 | Handling the completion of a listener's first failed add removes every version of its name and touches no other name; the invariant holds afterwards. |
| ListenerService.StartQueuesActive | envoy/envoy/source/server/listener_manager_impl.cc:447-458 | A start gives every worker exactly one add for each active listener, in list order, behind what is queued, and changes nothing else. |
| ListenerService.ActiveIsServed | envoy/envoy/source/server/listener_manager_impl.cc:363-387 | In every reachable state with running workers, each worker has for each active listener the add still queued, or an entry, which accepts unless the server was told to stop all its listeners, or a failed add behind it. |
| ListenerService.StoppedRefuses | envoy/envoy/source/server/connection_handler_impl.cc:43-49 | In every reachable state a worker that has run the stop of a draining listener accepts nothing on it. |
| ListenerService.DrainingIsStopped | envoy/envoy/source/server/listener_manager_impl.cc:300-313 | The step after which a listener is draining has queued its stop on every worker. |
| ListenerService.StopAllReachesWorkers | envoy/envoy/source/server/listener_manager_impl.cc:460-464 | A server-wide stop is queued last on every worker, and no entry accepts right after it ran. |
| ListenerService.CreatesAreCounted | envoy/envoy/source/server/listener_manager_impl.cc:363-387 | Over any run the success counter is the number of successful adds that main has handled, and the failure counter the number of listeners of which an add failed. |
| ListenerUpdates.OutcomeExactly | envoy/envoy/source/server/listener_manager_impl.cc:173-262 | For each of the outcomes of an add or update, the exact condition on the versions of the name, the addresses in use, the draining listeners and the bind. |
| ListenerUpdates.RefusalChangesNothing | envoy/envoy/source/server/listener_manager_impl.cc:186-212 | A skipped update changes nothing, a refused one only uses up a tag. |
| ListenerUpdates.SocketChosen | envoy/envoy/source/server/listener_manager_impl.cc:215-267 | A new version shares the socket of the versions of its name; a new name takes over the socket of a draining listener on its address and binds only if there is none. |
| ListenerUpdates.NewVersionLands | envoy/envoy/source/server/listener_manager_impl.cc:215-288 | The new version is active at once before the workers run or without a target left, else it is warming with exactly the targets that did not complete inline; added and modified count it. |
| ListenerUpdates.TargetLands | envoy/envoy/source/server/listener_manager_impl.cc:106-142 | The last target of a warming listener makes it active; an earlier one leaves it warming with the others. |
| ListenerLifecycle.ActivationIsWarranted | envoy/envoy/source/server/listener_manager_impl.cc:106-142 | A step makes a listener active only if the listener is new and has no target to wait for, or if it is warming and the step completes its last target. |
| ListenerLifecycle.GoneForGood | envoy/envoy/source/server/listener_manager_impl.cc:216-221 | A listener that was replaced or removed while warming, or has left the active list, never becomes warming or active again: it becomes active at most once. |
| ListenerLifecycle.Bookkeeping | envoy/envoy/source/server/listener_manager_impl.cc:173-288 | In every reachable state names are unique in each list, equal names share address and socket, nothing warms before the workers start, the gauges equal the list sizes, and added minus removed is the number of managed names. |
| ListenerLifecycle.DrainAccounting | envoy/envoy/source/server/listener_manager_impl.cc:300-335 | A drain has between one and drainTime ticks; until the last tick it waits for all workers, from then on for exactly those whose removal is queued or whose confirmation is unhandled, and never for none. |
| ListenerGap.ReplacementLeavesNoGap | envoy/envoy/source/server/listener_manager_impl.cc:389-408 | Once a worker accepts on the active version of a name it accepts on some version of it in every later state, for as long as the name is not removed, adds succeed and no server-wide stop comes. |
| ListenerGap.NoGapStep | envoy/envoy/source/server/listener_manager_impl.cc:309-313 | Every single step keeps this, with everything that is still queued on the worker taken into account. |
| ListenerGap.SecureTakeOver | envoy/envoy/source/server/listener_manager_impl.cc:392-400 | Queueing the add of the new version before the stop of the old one keeps the name covered at each task of the queue. |
| ListenerProgress.InternalDecreases | envoy/envoy/source/server/listener_manager_impl.cc:300-387 | Every step that is not new configuration uses up some of a measure of targets, ticks, queued tasks, completions and pending removals. |
| ListenerProgress.InternalRunIsBounded | envoy/envoy/source/server/listener_manager_impl.cc:300-387 | Without new configuration the manager takes at most that many steps. |
| ListenerProgress.QuiescentMeansErased | envoy/envoy/source/server/listener_manager_impl.cc:326-332 | Where no such step is left, all queues are empty, nothing warms, and every drained listener has been erased. |
| ListenerManagement.ListenerManager.AddOrUpdateListener | envoy/envoy/source/server/listener_manager_impl.cc:173-288 | The method, with its loops and its early exits, makes exactly the transition whose properties are proved above, and keeps the invariant. |
| ListenerManagement.ListenerManager.RemoveListener | envoy/envoy/source/server/listener_manager_impl.cc:419-445 | A warming version is destroyed, an active one is drained, an unknown name changes nothing; the result tells which. |
| ListenerManagement.ListenerManager.OnListenerWarmed | envoy/envoy/source/server/listener_manager_impl.cc:389-408 | Adds on all workers first, then the drain of the old version, then the move between the lists. |
| ListenerManagement.ListenerManager.DrainListener | envoy/envoy/source/server/listener_manager_impl.cc:300-338 | Front of the draining list, a stop to every worker, and the first tick at once. |
| ListenerManagement.ListenerManager.DrainSequenceTick | envoy/envoy/source/server/listener_manager_impl.cc:315-335 | A tick; the last one posts the removal to every worker. |
| ListenerManagement.ListenerManager.PostToWorkers | envoy/envoy/source/server/listener_manager_impl.cc:311-313 | The loop over the workers appends one task to every queue and changes nothing else. |
| ListenerManagement.ListenerManager.GetListenerByName | envoy/envoy/source/server/listener_manager_impl.cc:340-352 | The search that does not stop at the first match finds the first match, since names are unique. |
| ListenerManagement.ListenerManager.HasListenerWithAddress | envoy/envoy/source/server/listener_manager_impl.cc:290-298 | True exactly if some listener of the list has the address. |
| ListenerManagement.ListenerManager.FindDrainingSocket | envoy/envoy/source/server/listener_manager_impl.cc:254-262 | The first draining listener whose socket is bound to the address. |
| ListenerManagement.ListenerManager.ObtainSocket | envoy/envoy/source/server/listener_manager_impl.cc:215-267 | The socket of the warming version, else of the active one, else of a draining listener on the address, else a newly bound one or the failure to bind. |
| ListenerManagement.ListenerManager.PlaceListener | envoy/envoy/source/server/listener_manager_impl.cc:215-277 | The new version replaces a warming one, joins the warming list, or before the workers start replaces or joins an active one. |
| ListenerManagement.ListenerManager.InitializeListener | envoy/envoy/source/server/listener_manager_impl.cc:131-142 | Inline completions may warm the listener at once. |
| ListenerManagement.ListenerManager.OnTargetInitialized | envoy/envoy/source/server/listener_manager_impl.cc:131-142 | The last target warms the listener; a target of a listener that is gone does nothing. |
| ListenerManagement.ListenerManager.StartWorkers | envoy/envoy/source/server/listener_manager_impl.cc:447-458 | The nested loops queue each active listener once on each worker, in list order. |
| ListenerManagement.ListenerManager.StopListeners | envoy/envoy/source/server/listener_manager_impl.cc:460-464 | Every worker gets one stop of all its listeners. |
| ListenerManagement.ListenerManager.RunWorkerTask | envoy/envoy/source/server/worker_impl.cc:30-104 | A worker takes its oldest task, changes its handler, and posts the completion to main. |
| ListenerManagement.ListenerManager.RunCompletion | envoy/envoy/source/server/listener_manager_impl.cc:363-387 | Main handles its oldest completion, an add or a removal. |
| ListenerManagement.ListenerManager.HandleCreateFailure | envoy/envoy/source/server/listener_manager_impl.h:179-183 | A failed add counts and removes the name on the first failure of its listener only. |
| ListenerManagement.ListenerManager.OnWorkerRemoved | envoy/envoy/source/server/listener_manager_impl.cc:326-332 | One worker less is pending; the last one erases the entry and updates the gauge. |
| ListenerDiscovery.LdsApi.OnConfigUpdate | envoy/envoy/source/server/lds_api.cc:35-59 | After an update with distinct names that raises no error: every active name is in the update, every name of the update has a version with its hash, and the managed names are those of the update plus those that were only warming before. |
| ListenerDiscovery.LdsApi.RemoveMissing | envoy/envoy/source/server/lds_api.cc:52-56 | In whatever order the leftover names are walked, exactly these names go and every version of the update stays. |
| ListenerDiscovery.LdsApi.RunInitializeCallbackIfAny | envoy/envoy/source/server/lds_api.cc:67-72 | The init callback runs once and is then dropped. |
| ListenerDiscovery.AddOrUpdateVersions | envoy/envoy/source/server/listener_manager_impl.cc:173-288 | An add or update that does not throw leaves a version with the given hash under the name and touches no version of any other name. |
| ListenerDiscovery.RemoveVersions | envoy/envoy/source/server/listener_manager_impl.cc:419-445 | A removal touches no version of any other name. |
| InitManagement.CallbackOnceWhenAllDone | envoy/envoy/source/server/init_manager_impl.cc:10-45 | Under any mix of inline and later completions the callback runs at most once, and it has run exactly when initialize was called and no registered target is unfinished. |
| InitManagement.UnfinishedTargets | envoy/envoy/source/server/init_manager_impl.cc:28-45 | A target is on the list exactly from its registration until it completes, in its own initialize call or later. |
| InitManagement.StartedOnceInOrder | envoy/envoy/source/server/init_manager_impl.cc:10-45 | Nothing starts before initialize is called; from then on every registration has been started exactly once, in the order of registration. |
| InitManagement.InitManager.Initialize | envoy/envoy/source/server/init_manager_impl.cc:10-26 | The walk over a list from which targets remove themselves starts the registered targets once each, in order, and ends with exactly those that did not complete inline. |
| InitManagement.InitManager.OnTargetDone | envoy/envoy/source/server/init_manager_impl.cc:28-37 | The target goes; after the last one the state changes and the callback runs. |
| InitManagement.InitManager.RegisterTarget | envoy/envoy/source/server/init_manager_impl.cc:39-45 | A target that is registered while initializing starts at once. |
| DrainManagement.DrainManager.RunOut | envoy/envoy/source/server/drain_manager_impl.cc:39-56 | A started drain takes exactly drainTime ticks in all and runs its completion exactly once. |
| DrainManagement.DrainManager.StartDrainSequence | envoy/envoy/source/server/drain_manager_impl.cc:51-56 | The first tick happens at once. |
| DrainManagement.DrainManager.DrainSequenceTick | envoy/envoy/source/server/drain_manager_impl.cc:39-49 | A tick rearms the timer, or at the end runs the completion. |
| DrainManagement.DrainManager.DrainClose | envoy/envoy/source/server/drain_manager_impl.cc:19-37 | Close always when health checks fail, never before draining, else for as many of the drainTime random values as there were ticks; after the last tick always. |
| ConnectionHandling.ConnectionHandler.OnNewConnection | envoy/envoy/source/server/connection_handler_impl.cc:127-164 | A connection is kept and counted exactly if the filters left it open and there are filters; conservation holds: the count is the sum of all lists, and for each scope total is active plus destroyed, active being listed plus deferred. |
| ConnectionHandling.ConnectionHandler.RemoveConnection | envoy/envoy/source/server/connection_handler_impl.cc:57-64 | A closed connection moves from its listener to the deferred list, with conservation kept. |
| ConnectionHandling.ConnectionHandler.DestroyListener | envoy/envoy/source/server/connection_handler_impl.cc:81-87 | All connections of the listener are closed, front first; then everything deferred is deleted, what was deferred before going first. The count drops by exactly these connections, and no other list changes. |
| ConnectionHandling.ConnectionHandler.RemoveListeners | envoy/envoy/source/server/connection_handler_impl.cc:33-41 | Exactly the listeners of the tag go, each with its connections, which are deleted in list order; the walk that erases under its iterator skips none. |
| ConnectionHandling.ConnectionHandler.StopListeners | envoy/envoy/source/server/connection_handler_impl.cc:43-49 | Listeners of the tag stop accepting and keep their connections. |
| ConnectionHandling.ConnectionHandler.StopAllListeners | envoy/envoy/source/server/connection_handler_impl.cc:51-55 | All listeners stop accepting and keep their connections. |
| ConnectionHandling.ConnectionHandler.AddListener | envoy/envoy/source/server/connection_handler_impl.cc:14-31 | One accepting entry at the end. |
| ConnectionHandling.ConnectionHandler.ClearDeferredDeleteList | envoy/envoy/source/common/event/dispatcher_impl.cc:39-69 | Every deferred connection is deleted, in the order in which they were deferred, and is counted as destroyed. |
| ConnectionHandling.ConnectionHandler.FindListenerByAddress | envoy/envoy/source/server/connection_handler_impl.cc:98-125 | The first accepting listener with exactly this address, else the first that listens on all interfaces of the port; none only if no listener serves the address. |
| ConnectionHandling.WithoutTagEntries | envoy/envoy/source/server/connection_handler_impl.cc:33-41 | What the removal does to the handler is what the life cycle above takes it to do. |
| HotRestartTheorems.NoMisrouting | envoy/envoy/source/server/hot_restart_impl.cc:174-189 | Over every run, whatever was sent reached the epoch it was meant for, every inbox holds only messages of the neighbours in the chain, and no send and no typed receive failed. |
| HotRestartTheorems.ParentGoneBeforeNameReuse | envoy/envoy/source/server/hot_restart_impl.cc:174-189 | By the time epoch e + 2 has bound the name of epoch e - 1, epoch e has set parent_terminated_ and epoch e - 1 has exited. |
| HotRestartTheorems.NeverSendsToParentAgain | envoy/envoy/source/server/hot_restart_impl.cc:448-456 | From the moment a process has told its parent to terminate it never sends to that address again, however the run goes on. |
| HotRestartTheorems.AtMostThree | envoy/envoy/source/server/hot_restart_impl.cc:83-86 | At most the three youngest epochs live, only the youngest may be initializing, and a blocked process finds nothing but the reply it waits for. |
| HotRestartTheorems.BlockedProcessIsServed | envoy/envoy/source/server/hot_restart_impl.cc:216-246 | A process in a typed receive has at most two messages between it and its reply, and each step of its parent or itself removes one. |
| HotRestartTheorems.WaitNeverGrows | envoy/envoy/source/server/hot_restart_impl.cc:225-239 | No step of any process lengthens such a wait. |
| HotRestartTheorems.LockIsFreed | envoy/envoy/source/server/hot_restart_impl.cc:434-446 | Whoever holds init_lock_ is in a typed receive, so that it is freed; a free lock can be taken. |
| HotRestartTheorems.WaitEnds | envoy/envoy/source/server/hot_restart_impl.cc:216-246 | The helper steps alone end a wait, in at most three steps, and free the lock. |
| HotRestartTheorems.NobodyWaitsForever | envoy/envoy/source/server/hot_restart_impl.cc:434-446 | From every reachable state a waiting process gets into its event loop within seven steps of itself, its parent and the holder of the lock. |
| HotRestartTheorems.OldestIsTold | envoy/envoy/source/server/hot_restart_impl.cc:381-395 | When epoch e + 2 has shaken hands with its parent, epoch e has its terminate request or is past it. |
| HotRestartTheorems.LateDuplicationExactly | envoy/envoy/source/server/hot_restart_impl.cc:202-214 | A running process that duplicates a socket after its start-up can be brought to a failed assertion exactly if it has a parent that it has not terminated and has a child or, the flag being clear, can get one. Elsewhere such a duplication is one of the steps of the runs above. |
| HotRestartTheorems.StatsAreAsked | envoy/envoy/source/server/hot_restart_impl.cc:216-246 | A running process asks its parent for its statistics exactly if it has one that it has not told to terminate and nobody holds the lock; the parent gets exactly this request. |
| HotRestartTheorems.SocketIsAsked | envoy/envoy/source/server/hot_restart_impl.cc:202-214 | A process that may duplicate a listen socket asks its parent for it exactly if it has one that it has not told to terminate. |
| HotRestartTheorems.StartOutcome | envoy/envoy/source/server/hot_restart_impl.cc:83-86 | A start yields a process exactly if the flag is clear and the epoch three before is gone; it wedges the chain exactly if the flag is clear and that epoch still lives. |
| HotRestartTheorems.WedgedForever | envoy/envoy/source/server/hot_restart_impl.cc:160-172 | A failed bind leaves INITIALIZING set: no process ever starts again, whatever happens later. |
| HotRestartHistory.ToldExactlyOnce | envoy/envoy/source/server/hot_restart_impl.cc:191-200 | Over every run each process but the first asks its parent exactly once to shut its admin down, as its first act, exactly once to drain, when it has started, and exactly once to terminate, when it sets parent_terminated_. |
| HotRestartHistory.TallyStep | envoy/envoy/source/server/hot_restart_impl.cc:191-456 | Every step keeps these counts in agreement with the processes. |
| HotRestartHistory.WedgedOnlyByFailedBind | envoy/envoy/source/server/hot_restart_impl.cc:198-199 | The flag outlives start-up in no other way: a process that finishes its start-up clears it. |
| HotRestartInvariant.InvStep | envoy/envoy/source/server/hot_restart_impl.cc:83-456 | Every step of every process keeps the protocol invariant, duplications during start-up and harmless late ones included. |
| HotRestartInvariant.InvRun | envoy/envoy/source/server/hot_restart_impl.cc:83-456 | The invariant holds in every state of every such run. |
| HotRestartProcess.HandleAllIsARun | envoy/envoy/source/server/hot_restart_impl.cc:381-432 | Handling an event until the socket is empty is a sequence of protocol steps, one a message, and ends in the event loop. |
| HotRestartProcess.HotRestarter.Launch | envoy/envoy/source/server/hot_restart_impl.cc:83-124 | The flag is set before it is looked at and before the bind; what comes of it is what the protocol says. |
| HotRestartProcess.HotRestarter.ShutdownParentAdmin | envoy/envoy/source/server/hot_restart_impl.cc:434-446 | Takes the lock and sends the request, or returns at once in the first epoch. |
| HotRestartProcess.HotRestarter.DuplicateParentListenSocket | envoy/envoy/source/server/hot_restart_impl.cc:202-214 | Nothing in the first epoch or after the parent was terminated, else the request. |
| HotRestartProcess.HotRestarter.GetParentStats | envoy/envoy/source/server/hot_restart_impl.cc:216-246 | The lock is only tried. |
| HotRestartProcess.HotRestarter.ReceiveTyped | envoy/envoy/source/server/hot_restart_impl.h:185-190 | Any message of another type fails the assertion. |
| HotRestartProcess.HotRestarter.ReceiveRpc | envoy/envoy/source/server/hot_restart_impl.cc:260-318 | The oldest message leaves the socket. |
| HotRestartProcess.HotRestarter.DrainParentListeners | envoy/envoy/source/server/hot_restart_impl.cc:191-200 | The drain request to the parent, then the flag is cleared. |
| HotRestartProcess.HotRestarter.TerminateParent | envoy/envoy/source/server/hot_restart_impl.cc:448-456 | At most one terminate request. |
| HotRestartProcess.HotRestarter.HandleMessage | envoy/envoy/source/server/hot_restart_impl.cc:388-430 | One message, with its reply to the child. |
| HotRestartProcess.HotRestarter.OnSocketEvent | envoy/envoy/source/server/hot_restart_impl.cc:381-432 | The loop handles all mail, oldest first. |
| HotRestartProcess.HotRestarter.CatchSigterm | envoy/envoy/source/server/server.cc:302-307 | The parent is told, then the event loop ends. |
| HotRestartProcess.Sockets.Send | envoy/envoy/source/server/hot_restart_impl.cc:320-334 | The bound name decides who gets a message; an unbound one fails the send. |
| StatSlots.HistoryKeepsIndex | envoy/envoy/source/server/hot_restart_impl.cc:126-158 | After every history of allocations and frees no two slots in use share a name, each count is allocations minus frees, and every held name has its slot. |
| StatSlots.SlotsApart | envoy/envoy/source/server/hot_restart_impl.cc:126-147 | Over any history, two allocations by name, the first still held at the second, get one slot exactly if the names are the same up to where a slot ends them: names that differ within the maximum length never share a slot. |
| StatSlots.KeyIsLongest | envoy/envoy/source/common/stats/stats_impl.cc:131-142 | A slot stores the longest beginning of a name that has no NUL and at most the maximum length. |
| StatSlots.KeyOfPlainName | envoy/envoy/source/common/stats/stats_impl.cc:131-142 | A name without a NUL is stored whole if it fits, else cut to exactly the maximum. |
| StatSlots.AllocKeepsIndex | envoy/envoy/source/common/stats/stats_impl.h:125-138 | Allocation keeps this exactly if the stored name is not empty and the 16-bit count does not wrap. |
| StatSlots.FreeKeepsIndex | envoy/envoy/source/server/hot_restart_impl.cc:149-158 | A free takes one holder away, zeroes the slot with the last one, and touches no other slot. |
| StatSlots.EmptyNameIsHandedOutAgain | envoy/envoy/source/common/stats/stats_impl.h:125-128 | A slot that was allocated under an empty name is handed out again to the next new name. |
| StatSlots.Alloc | envoy/envoy/source/server/hot_restart_impl.cc:126-147 | Fails exactly if no slot matches and none is free; touches only the slot it returns, which is the matching one if there is one. |
| StatSlots.StatTable.AllocSlot | envoy/envoy/source/server/hot_restart_impl.cc:126-147 | The one scan that remembers the last free slot and stops at a match. |
| StatSlots.StatTable.FreeSlot | envoy/envoy/source/server/hot_restart_impl.cc:149-158 | The count goes down in place; at zero the slot is cleared. |
| StatSlots.CString | envoy/envoy/source/common/stats/stats_impl.cc:131-142 | Names are stored and compared up to their first NUL: the longest prefix without one. |
| RateLimiter.StatisticsAreTotals | ratelimit/ratelimit/src/redis/cache_impl.go:73-175 | Over any interleaving of the calls of any number of instances, the statistics that all instances together hold for a limit grow by exactly the totals of its windows: the hits, those over the limit and those near it. |
| RateLimiter.CallsAddUpToTotals | ratelimit/ratelimit/src/redis/cache_impl.go:115-172 | What the calls count and admit, each from its own replies alone, adds up to the totals of the windows; the hits answered OK stay within the limits, and all are answered OK if every total is within its limit. |
| RateLimiter.OneWindow | ratelimit/ratelimit/src/redis/cache_impl.go:115-172 | The same for one window by itself. |
| RateLimiter.StatusesAdmit | ratelimit/ratelimit/src/redis/cache_impl.go:115-172 | The hits admitted are those of the descriptors whose returned status is OK. |
| RateLimiter.StatisticsOfCalls | ratelimit/ratelimit/src/redis/cache_impl.go:90-172 | The statistics of each instance, after its calls, add up to what the calls charge. |
| RateLimiter.CallsKeepWindow | ratelimit/ratelimit/src/redis/cache_impl.go:99-113 | Commands that execute at the clock value their call read keep a key's window, if every call that uses the key read the clock in it. |
| RateLimiter.HistoryEffect | ratelimit/ratelimit/src/redis/cache_impl.go:124-157 | The judgements on the INCRBY commands of a history, taken key by key, add up to those taken in the order of the history. |
| RateStore.WindowIsLimited | ratelimit/ratelimit/src/redis/cache_impl.go:124-157 | For any interleaving of the commands in one window: the verdicts on its replies admit no more hits than the limit and count exactly the hits over the limit and those between the near threshold and the limit. |
| RateStore.WindowOfSingleHits | ratelimit/ratelimit/src/redis/cache_impl.go:124-157 | With single hits exactly the first min(n, limit) of n calls are admitted. |
| RateStore.CounterIsSumOfHits | ratelimit/ratelimit/src/redis/cache_impl.go:99-113 | A window's counter never expires inside its window and is at every moment the sum of the hits sent to it. |
| RateStore.RepliesArePrefixSums | ratelimit/ratelimit/src/redis/cache_impl.go:124-127 | The i-th INCRBY of a window is answered with the sum of the first i + 1 addends. |
| RateStore.KeySeparatesWindows | ratelimit/ratelimit/src/redis/cache_impl.go:48-64 | One descriptor's keys coincide exactly for times in one window. |
| RateStore.KeySeparatesDescriptors | ratelimit/ratelimit/src/redis/cache_impl.go:48-64 | For domains, keys and values without the separator, cache keys are equal exactly for equal domains, equal entries and equal window starts. |
| RateStore.SeparatorCollides | ratelimit/ratelimit/src/redis/cache_impl.go:55-59 | Two descriptors with the separator in a value that share all their counters. |
| RateStore.DigitsAreDecimal | ratelimit/ratelimit/src/redis/cache_impl.go:62 | The window start is written as its decimal numeral, without leading zeros. |
| RateStore.SameWindow | ratelimit/ratelimit/src/redis/cache_impl.go:61-62 | All times of one window have its first second as their start. |
| RateStore.IncrementSeesWindow | ratelimit/ratelimit/src/redis/cache_impl.go:99-113 | An INCRBY anywhere in a history is answered with the hits of its window before it and its own. |
| RateStore.CountIsCompleteExactly | ratelimit/ratelimit/src/redis/cache_impl.go:106-127 | Over any history, late commands and all: a reader finds the sum of all hits exactly if no INCRBY lost any and the counter is not gone with hits in it. |
| RateStore.LateIncrement | ratelimit/ratelimit/src/redis/cache_impl.go:106-113 | One INCRBY on one key continues its count exactly if the counter is still alive or was zero. |
| RateStore.LateCallRestartsTheCount | ratelimit/ratelimit/src/redis/cache_impl.go:89-113 | A call that reads the clock in a window and whose commands execute at its end starts a new count under the old key. |
| RateStore.UnitsNest | ratelimit/ratelimit/src/redis/cache_impl.go:27-64 | A day is a whole number of hours, an hour of minutes, a minute of seconds, and the windows of a unit lie in those of every longer one. |
| RateAccounting.JudgeIsTheDifference | ratelimit/ratelimit/src/redis/cache_impl.go:127-171 | While the counter fits in 32 bits, a call's code, remaining count and statistics are the differences of the window's totals, although it sees only its own pair. |
| RateAccounting.TruncatedCode | ratelimit/ratelimit/src/redis/cache_impl.go:124-134 | The code alone is right exactly if the counter fits in 32 bits or its low half is over the limit too. |
| RateAccounting.TruncatedVerdict | ratelimit/ratelimit/src/redis/cache_impl.go:124-171 | The whole verdict, code, remaining count and both statistics, is right exactly if the counter fits in 32 bits, or its low half is over the limit after the call and was at the limit at least before it. |
| RateAccounting.HitsAreCounted | ratelimit/ratelimit/src/redis/cache_impl.go:134-171 | The hits over the limit, and those near it, are the hits with a number past the limit, and past the near threshold but not the limit. |
| RateAccounting.StatisticsTelescope | ratelimit/ratelimit/src/redis/cache_impl.go:134-171 | The statistics of a window's calls add up to those of its total. |
| RateAccounting.AdmittedWithinLimit | ratelimit/ratelimit/src/redis/cache_impl.go:134-157 | Admitted hits stay within the limit, and all hits are admitted as long as they fit. |
| RateAccounting.SingleHitsAdmitted | ratelimit/ratelimit/src/redis/cache_impl.go:134-157 | Of single hits the first ones up to the limit are admitted and no others. |
| RateCache.PipelineKeepsWindow | ratelimit/ratelimit/src/redis/cache_impl.go:99-113 | The commands of a call, executed at the time it read, meet what the shared store asks of every user of a window's key. |
| RateCache.AnswersMatchReplies | ratelimit/ratelimit/src/redis/cache_impl.go:115-172 | A call that succeeds has one answer a descriptor, in order: OK without a limit, else the verdict on its own reply. |
| RateCache.VerdictOnWindowTotal | ratelimit/ratelimit/src/redis/cache_impl.go:99-129 | The verdict on each descriptor of a call is the judgement on the hits of its window up to and including its own command, over all instances and whatever else Redis executed in between; the command stands at the place of the descriptor in the pipeline. |
| RateCache.StatusOnWindowTotal | ratelimit/ratelimit/src/redis/cache_impl.go:115-172 | The status returned for a descriptor is OK exactly if the total of its window is within the limit, with what is left of the limit, while the total fits in 32 bits. |
| RateCache.CallsShareCounter | ratelimit/ratelimit/src/redis/cache_impl.go:48-64 | Two calls count a descriptor together exactly if they read the clock in one window of the limit's unit. |
| RateCache.DescriptorsHaveOwnCounters | ratelimit/ratelimit/src/redis/cache_impl.go:48-64 | Descriptors without the separator share a counter only if they are the same, in the same domain. |
| RateCache.PipelineAt | ratelimit/ratelimit/src/redis/cache_impl.go:99-113 | Where the two commands of a descriptor stand in the pipeline. |
| RateCache.FailsOnFirstBadReply | ratelimit/ratelimit/src/redis/driver_impl.go:82-95 | A call fails exactly if one of its replies is bad and stops right after the first; one that succeeds has read the replies to its own commands and no more. |
| RateCache.StatisticsOfACall | ratelimit/ratelimit/src/redis/cache_impl.go:90-97 | Each limit gains the hits once for every descriptor that meets it, and the charges of exactly these descriptors, even if descriptors share a limit. |
| RateCache.PipelineLength | ratelimit/ratelimit/src/redis/cache_impl.go:99-113 | Two commands for every descriptor with a limit. |
| RateCache.HitsAddend | ratelimit/ratelimit/src/redis/cache_impl.go:82-83 | No number of hits counts as one. |
| RateCache.RateLimitCache.DoLimit | ratelimit/ratelimit/src/redis/cache_impl.go:73-175 | Commands, answers, statistics and the connection's end, whether the call succeeds, fails in a reply, or gets no connection. |
| RateCache.RateLimitCache.BuildKeys | ratelimit/ratelimit/src/redis/cache_impl.go:85-97 | The first loop. |
| RateCache.RateLimitCache.SendPipeline | ratelimit/ratelimit/src/redis/cache_impl.go:99-113 | The second loop: the divider, plus jitter if there is any. |
| RateCache.RateLimitCache.ReadReplies | ratelimit/ratelimit/src/redis/cache_impl.go:115-172 | The third loop, which ends at the first bad reply. |
| RateCache.Connection.PipeAppend | ratelimit/ratelimit/src/redis/driver_impl.go:77-80 | One more reply is pending. |
| RateCache.Connection.PipeResponse | ratelimit/ratelimit/src/redis/driver_impl.go:82-89 | An error is raised only after its reply was taken off the pipeline. |
| RateCache.Pool.Put | ratelimit/ratelimit/src/redis/driver_impl.go:54-66 | A connection goes back into the pool exactly if no reply is pending. |
| RateCache.Pool.Get | ratelimit/ratelimit/src/redis/driver_impl.go:46-52 | A connection with nothing pending. |
| RateConfig.ConfigurationAnswers | ratelimit/ratelimit/src/config/config_impl.go:222-284 | A list of files is accepted exactly if every file has a domain of its own and acceptable lists at every level, and then every lookup is a direct search of the file with the domain. |
| RateConfig.WalkIsSearch | ratelimit/ratelimit/src/config/config_impl.go:242-284 | For every accepted list and every request, GetLimit on the loaded trie is the direct search of the nested list: composite key first, else the key alone, a limit only at the last entry. |
| RateConfig.LoadsExactlyAcceptable | ratelimit/ratelimit/src/config/config_impl.go:104-151 | Loading succeeds exactly on lists with keys, distinct composite keys and valid units at every level, and gives one node for each descriptor and nothing else. |
| RateConfig.ParseUnitExactly | ratelimit/ratelimit/src/config/config_impl.go:128-135 | A unit is accepted exactly if it is spelled like its name in the wire format, character by character, in any mixture of cases. |
| RateConfig.LoadedLimit | ratelimit/ratelimit/src/config/config_impl.go:104-151 | An accepted list loads each descriptor under its key, with a limit exactly if it has one, and then with its requests, its unit and its full name. |
| RateConfig.EntryMatches | ratelimit/ratelimit/src/config/config_impl.go:255-264 | An entry is matched by the descriptor with its key and value, else by the one with its key alone. |
| RateConfig.NothingMatches | ratelimit/ratelimit/src/config/config_impl.go:255-264 | An entry has no match exactly if neither of these is in the list. |
| RateConfig.SearchFollowsPath | ratelimit/ratelimit/src/config/config_impl.go:242-284 | The limit found is that of the last descriptor of the way down all entries; none that stands higher up counts. |
| RateConfig.SearchNeedsPath | ratelimit/ratelimit/src/config/config_impl.go:242-284 | A limit is found only if there is such a way. |
| RateConfig.FirstErrorWins | ratelimit/ratelimit/src/config/config_impl.go:104-151 | A list is refused with the error of its first bad descriptor. |
| RateConfig.AnswerIsUnique | ratelimit/ratelimit/src/config/config_impl.go:119-123 | In an accepted list a key belongs to one descriptor only, so that the order of search does not matter. |
| RateConfig.FillDescriptors | ratelimit/ratelimit/src/config/config_impl.go:104-151 | The recursive loop that fills the maps, with its three errors. |
| RateConfig.RateLimitConfig.LoadConfig | ratelimit/ratelimit/src/config/config_impl.go:199-231 | A refused file leaves the configuration as it was. |
| RateConfig.RateLimitConfig.LookUp | ratelimit/ratelimit/src/config/config_impl.go:242-284 | The loop with its early end computes the walk. |
| RateService.Service.ReloadConfig | ratelimit/ratelimit/src/service/ratelimit.go:59-87 | The new configuration replaces the old one as a whole exactly if all files are acceptable; else every query keeps its answer. |
| RateService.Service.ShouldRateLimit | ratelimit/ratelimit/src/service/ratelimit.go:101-163 | Refusals, Redis failures and answers, with the counters of each; the overall code is OVER_LIMIT exactly if some status is. |
| RateService.Service.Aggregate | ratelimit/ratelimit/src/service/ratelimit.go:118-129 | All statuses, in order, and that code. |
| RateService.AnsweredFromTheFiles | ratelimit/ratelimit/src/service/ratelimit.go:110-129 | In an answered request each descriptor is judged by its own reply against the limit that a search of the configuration files gives, and is OK if there is none. |
| Base64.DecodeUndoesEncode | envoy/envoy/source/common/common/base64.cc:27-183 | decode(encode(x)) is x for every x. |
| Base64.EncodeUndoesDecode | envoy/envoy/source/common/common/base64.cc:27-103 | Whatever the decoder accepts without a read out of range is the encoding of its result, so that padding and pad bits are exact. |
| Base64.AcceptsExactlyEncodings | envoy/envoy/source/common/common/base64.cc:27-103 | The decoder gives bytes exactly on the encodings of non-empty strings, and they encode back to the text; every other text is refused or read out of range. |
| Base64.ReadsOutOfRangeExactly | envoy/envoy/source/common/common/base64.cc:27-83 | The decoder looks outside its table exactly on texts whose length is a positive multiple of four and that have a byte from 128 on among the characters looked up before the first refusal. |
| Base64.LowBytesAreSafe | envoy/envoy/source/common/common/base64.cc:27-103 | On texts of bytes below 128, which a caller can see to, no lookup leaves the table, and the decoder gives nothing exactly if the text is no encoding of a non-empty string. |
| Base64.HighByteWitness | envoy/envoy/source/common/common/base64.cc:57-83 | A text that is read out of range, and one with the same byte that is refused first. |
| Base64.InTableExactly | envoy/envoy/source/common/common/base64.cc:15-25 | An index widened with its sign is inside the table exactly for bytes below 128, which have all the alphabet and the pad. |
| Base64.EncodedAt | envoy/envoy/source/common/common/base64.cc:105-137 | The encoding is the one of the standard, character by character: each stands for its six bits of the input in the alphabet, or is a pad if the input has no such bit. |
| Base64.TableIsAlphabet | envoy/envoy/source/common/common/base64.cc:9-10 | The encoder's table is the alphabet of the standard. |
| Base64.StreamIsEncoded | envoy/envoy/source/common/common/base64.cc:105-137 | The encoder that carries bits from byte to byte computes the group-wise definition. |
| Base64.EncodedConcat | envoy/envoy/source/common/common/base64.cc:105-137 | Encoding splits at every multiple of three bytes. |
| Base64.TablesAreInverse | envoy/envoy/source/common/common/base64.cc:9-25 | The two tables are inverse to each other, and the pad is in neither. |
| Base64.Encode | envoy/envoy/source/common/common/base64.cc:167-182 | The loop over a flat string. |
| Base64.EncodeBuffer | envoy/envoy/source/common/common/base64.cc:139-165 | However the buffer is cut into slices, the result is the encoding of its first min(length, total) bytes. |
| Base64.Decode | envoy/envoy/source/common/common/base64.cc:27-103 | The loop with its padding index and early exits, and where it reads out of range. |
| Base64.EncodeByte | envoy/envoy/source/common/common/base64.cc:105-121 | One byte: the characters it completes and the bits it leaves. |
| GuardDogRuns.CountersAreAllStalls | envoy/envoy/source/server/guarddog_impl.cc:37-108 | Over any run, with dogs created and stopped between scans, each of the two shared counters is the number of touch times that some scan found overdue, summed over all dogs ever created, also if the run ends with a panic. |
| GuardDogRuns.SettledStep | envoy/envoy/source/server/guarddog_impl.cc:37-108 | Creating, stopping and scanning keep this, and what is remembered of each watched dog is the outcome of the scans of it. |
| GuardDogRuns.ScanTreatsEach | envoy/envoy/source/server/guarddog_impl.cc:43-78 | A scan treats every dog that it reaches by itself, whether or not it ends with a panic. |
| GuardDogs.EachStallCountsOnce | envoy/envoy/source/server/guarddog_impl.cc:43-62 | For one dog and every touch time, its scans count exactly one miss and one mega-miss if some scan saw that time overdue, and none otherwise. |
| GuardDogs.FlagsAfter | envoy/envoy/source/server/guarddog_impl.cc:45-62 | After a scan a flag is up exactly if the current stall has been seen overdue. |
| GuardDogs.DetectedInTime | envoy/envoy/source/server/guarddog_impl.cc:110-117 | With scans at most an interval apart, the first scan past the timeout comes within timeout plus interval of the last touch. |
| GuardDogs.MissCountedInTime | envoy/envoy/source/server/guarddog_impl.cc:49-55 | The miss is counted in that very scan. |
| GuardDogs.PanicsExactly | envoy/envoy/source/server/guarddog_impl.cc:63-76 | A scan panics exactly if one dog is past an enabled kill timeout or two are past an enabled multikill timeout. |
| GuardDogs.WhichPanic | envoy/envoy/source/server/guarddog_impl.cc:63-76 | The first dog past the kill timeout, or past the multikill timeout after another one, ends the scan, and it decides which panic it is. |
| GuardDogs.LoopIntervalIsLeast | envoy/envoy/source/server/guarddog_impl.cc:20-28 | The scan interval is the least of the enabled timeouts. |
| GuardDogs.GuardDog.CheckAll | envoy/envoy/source/server/guarddog_impl.cc:37-78 | One scan of all dogs in place, with the alerts of every dog also after a panic. |
| GuardDogs.GuardDog.CheckDog | envoy/envoy/source/server/guarddog_impl.cc:43-62 | The flags, the alert time and the counters of one dog. |
| GuardDogs.GuardDog.CreateWatchDog | envoy/envoy/source/server/guarddog_impl.cc:81-97 | A new dog is watched, unalerted and just touched. |
| GuardDogs.GuardDog.StopWatching | envoy/envoy/source/server/guarddog_impl.cc:99-108 | The first entry of the dog goes; the others keep their alerts and their order. |
| WatermarkBuffers.AlwaysGood | envoy/envoy/source/common/buffer/watermark_buffer.cc:8-87 | Over any run of additions, drains, moves between buffers, reservations and changes of the marks, the callbacks of every buffer alternate strictly, and after every operation the state fits the size. |
| WatermarkBuffers.BytesInOrder | envoy/envoy/source/common/buffer/buffer_impl.cc:22-94 | Over any run, also with moves between buffers, what went out of a buffer followed by what is in it is what came in, in order. |
| WatermarkBuffers.MarksAreSet | envoy/envoy/source/common/buffer/watermark_buffer.cc:61-67 | Setting the marks sets exactly these and leaves the bytes. |
| WatermarkBuffers.AboveMeansCrossed | envoy/envoy/source/common/buffer/watermark_buffer.cc:69-87 | Under fixed marks the buffer is above exactly if its size was over the high mark once and has not been under the low mark since. |
| WatermarkBuffers.DrainReachesLow | envoy/envoy/source/common/buffer/watermark_buffer.cc:69-77 | A buffer that is above can be brought back by draining exactly if the low mark is not zero. |
| WatermarkBuffers.OperationsKeep | envoy/envoy/source/common/buffer/watermark_buffer.cc:8-87 | Each operation keeps this, and reserving never calls back. |
| WatermarkBuffers.GrowTwice | envoy/envoy/source/common/buffer/buffer_impl.cc:28-35 | Growing slice by slice calls back no more and no less than growing at once. |
| WatermarkBuffers.WatermarkBuffer.Add | envoy/envoy/source/common/buffer/watermark_buffer.cc:8-16 | Bytes are appended, then the high mark is checked. |
| WatermarkBuffers.WatermarkBuffer.AddSlices | envoy/envoy/source/common/buffer/watermark_buffer.cc:18-21 | Copying another buffer in, with a check after each slice. |
| WatermarkBuffers.WatermarkBuffer.Commit | envoy/envoy/source/common/buffer/watermark_buffer.cc:23-26 | Committed bytes count. |
| WatermarkBuffers.WatermarkBuffer.Drain | envoy/envoy/source/common/buffer/watermark_buffer.cc:28-31 | Bytes go from the front, then the low mark is checked. |
| WatermarkBuffers.WatermarkBuffer.Move | envoy/envoy/source/common/buffer/buffer_impl.cc:76-94 | Exactly the first bytes of the other buffer move; the other buffer checks its low mark, then this one its high mark. |
| WatermarkBuffers.WatermarkBuffer.Read | envoy/envoy/source/common/buffer/watermark_buffer.cc:43-47 | A read appends what the file gave; a failed one nothing. |
| WatermarkBuffers.WatermarkBuffer.Write | envoy/envoy/source/common/buffer/watermark_buffer.cc:55-59 | A write takes what the file accepted; a failed one nothing. |
| WatermarkBuffers.WatermarkBuffer.Reserve | envoy/envoy/source/common/buffer/watermark_buffer.cc:49-53 | Reserving changes nothing and calls nothing. |
| WatermarkBuffers.WatermarkBuffer.SetWatermarks | envoy/envoy/source/common/buffer/watermark_buffer.cc:61-67 | New marks, with both checks. |
| WatermarkBuffers.WatermarkBuffer.SetWatermark | envoy/envoy/source/common/buffer/watermark_buffer.h:36 | The low mark is half of the one given. |

## Left out

- Sockets, shared memory mapping, file descriptor passing, signals and robust mutexes: they are inboxes, a flag and an abstract lock. A full datagram queue is not modelled; a send fails only if the name is unbound.
- A process of the restart chain that ends for any other reason than a terminate request, and a runner that does not use the next epoch number.
- Version and size checks of the shared memory segment, and the log and access-log locks.
- Protobuf, JSON and YAML parsing, TLS contexts, filter factories and statistics sinks: a listener's configuration is a name, an address, a hash, a bind flag and a set of init targets. Failures in the constructor of a listener other than those of the address checks and the socket are not modelled.
- Server shutdown order, `stopWorkers` and thread-local teardown.
- Init targets of a listener that are registered from inside the initialize loop, and targets that complete twice.
- Connections of a worker's handler are not part of the life-cycle runs; `connection_handler.dfy` has them and is tied to the runs through the handler's entries.
- Connection addresses without a port: the fallback search of `findListenerByAddress` asks the address for its IP and is stated for IP addresses only.
- Callbacks of connections and buffers that call back into the same object.
- Randomness, clocks and floating point: uuids, jitter, drain-close random values, times and the near threshold are inputs.
- RateStore.WindowIsLimited: assumes, as the source does, that commands execute in the window whose time was read, that one key has one limit, and that a window's total is below 2^32; `LateCallRestartsTheCount`, `CountIsCompleteExactly` and `TruncatedVerdict` show what happens otherwise.
- RateLimiter.StatisticsAreTotals: makes the same assumptions, and that no call fails: a call that fails after its commands were sent has counted hits in Redis that nobody charges.
- RateStore.KeySeparatesDescriptors: is about domains, keys and values without the separator, which the source does not escape; `SeparatorCollides` shows two descriptors that share their counters.
- RateConfig.LoadsExactlyAcceptable: unit names are upper-cased in ASCII only, while the source's upper-casing knows all of Unicode.
- RateConfig.RateLimitConfig.LoadConfig: a file that the YAML reader or the key check refuses is one error without its text.
- HotRestartTheorems.NobodyWaitsForever: gives a short schedule from every state; that a waiting process is scheduled at all, and that the lock is fair, is up to the operating system.
- HotRestartProcess.HotRestarter.ReceiveTyped: after a failed assertion nothing is said about the process.
- Base64.Decode: takes `char` to be signed; where it is unsigned every index is in the table and bytes from 128 on are refused. What a read outside the table returns is not modelled.
- GuardDogs.DetectedInTime: takes the scans to be at most an interval apart; the source waits one interval after each scan.
- WatermarkBuffers.WatermarkBuffer.Move: a buffer is not moved into itself.
- StatSlots.HistoryKeepsIndex: values of the statistics and their atomic updates are not modelled, only names and counts.
- Which version of a listener is the latest, and whether a failed worker add removes exactly the failed version: the source compares hashes with either list and removes by name.
