# vAccelRT runtime core: lists, ids, resources, sessions, plugins, profiling

A Dafny model of the registries at the centre of vAccelRT, with proofs about every run of
their calls. `dafny verify dfyconfig.toml` checks the whole project.

All of these structures are intrusive circular lists (`list.h`) plus an id allocator
(`id_pool.c`). The model keeps that form: `Entry` objects with `next` and `prev`, an array of
ids, C structs as classes whose methods update fields in place. Ghost fields say which ring an
entry is in and which sequence a ring holds. Two kinds of statement are proved.

* Heap code against a value: each method's contract gives its whole new state, either in full
  or as one transition of a state machine over plain values.
* Laws about those state machines: what every step keeps, what holds after every run, what is
  undone, what an answer means in terms of the history of calls.

| file | content |
|---|---|
| `Codes.dfy`, `Seqs.dfy` | return codes; sequences |
| `Lists.dfy` | `list.h`: rings, the plain and the safe loop |
| `IdPool.dfy`, `IdPoolThreads.dfy` | `id_pool.c`, sequentially and as interleaved atomic steps |
| `Resources.dfy` | `resources.c`: pool, live list, reference counts, clean-up |
| `Sessions.dfy`, `SessionTable.dfy` | `session.c`: registrations, the table of running sessions |
| `Runs.dfy`, `Runtime.dfy` | whole runs of both, as a state machine, and the heap that refines it |
| `PluginRuns.dfy`, `PluginHistory.dfy`, `Plugins.dfy` | `plugin.c`: state machine, runs and lookups, heap |
| `Profiling.dfy` | `vaccel_prof.c`: the sample array |
| `Transactions.dfy` | creation with roll-back in `tf_saved_model.c` and `shared_object.c` |

Definitions are hidden in most proofs (`hide`) to keep them small. The small lemmas whose names
end in `Parts`, `Is` or `Step` and those that name a shape open one definition again, for the
terms a proof needs.

`get_virtio_plugin()` is taken to return null, so ids come from the local pool. Results of
memory allocation, file system calls, removals included, and the clock are parameters of the
methods.

## What callers have to see to

These are the conditions under which the code does what it promises. Each stands as a `requires`
or in a predicate `Legal`.

* Ids: only live ids are released, and not after a get has failed on a full pool. A failed get
  moves `next` and nothing moves it back (`src/id_pool.c:52-54`); `IdPools.GetKeepsWFIff` says
  exactly when this happens and `IdPools.OverdrawnExample` shows it. For clients of sessions and
  resources the condition is that no call was answered with "no id left": `Runs.LegalAfterRun`.
* Threads: gets and releases of one pool do not overlap. The release publishes its slot after
  moving `next` (`src/id_pool.c:74-77`); `IdPoolThreads.SafeIff` says that exactly the sets of
  threads that all get or all release are safe.
* Resources and sessions: only initialised objects are passed, only unlinked ones are
  initialised, only live resources are registered or destroyed and only running sessions freed.
* Counts: a resource is registered fewer than 2^32 times (`Runs.RegisterCountsIff`).
* `resource_get_by_id` answers OK on a miss when the pointer passed in is not null
  (`src/resources.c:126`). The model follows the code; callers should pass null.
* Plugins: an operation is registered while in no list, for a plugin whose code is loaded and
  which has a description. Whether that plugin is registered is not checked by the code;
  `PluginHistory.ShutdownDrains` says what depends on it. The lists are initialised again only
  when they are empty; `Plugins.PluginState.PluginsBootstrap` says what happens otherwise.
* Unregistering does not clear `plugin_state.virtio` (`PluginHistory.VirtioRegisteredIff`).
* After a clean-up the registry is bootstrapped before it is used again: the pool is gone.
* Profiling: regions start as `VACCEL_PROF_REGION_INIT` makes them. Totals are the sum of the
  intervals as long as no start is refused for want of memory; `Profiling.TotalBalances` says
  what they are otherwise.

## Model

| member | source | states |
|---|---|---|
| Lists.Entry.Link | src/list.h:44-51 | linking between two adjacent nodes inserts the entry at exactly that position of the ring; the result is a well-formed ring, both pointers of every node |
| Lists.Entry.Unlink | src/list.h:54-59 | unlinking, without being told the head, removes exactly this entry from the ring it is in and leaves it pointing to itself |
| Lists.Entry.AddHead | src/list.h:63-66 | the list becomes the entry followed by the old list |
| Lists.Entry.AddTail | src/list.h:70-73 | the list becomes the old list followed by the entry |
| Lists.Entry.RemoveHead | src/list.h:75-84 | null on an empty list; else the first entry, which is unlinked, and the rest stays |
| Lists.Entry.RemoveTail | src/list.h:86-95 | null on an empty list; else the last entry, which is unlinked, and the rest stays |
| Lists.Entry.IsEmpty | src/list.h:20-23 | comparing one pointer decides whether the ring has entries |
| Lists.Entry.IsLinked | src/list.h:25-28 | comparing one pointer decides whether an entry is in some ring |
| Lists.Entry.ForEach | src/list.h:118-119 | following `next` from the head visits exactly the entries, in order, and terminates |
| Lists.Entry.ForEachSafe | src/list.h:145-150 | for every body that on each turn leaves the cursor alone or unlinks it: every initial entry is visited once in order, the loop terminates, and exactly the kept entries remain, in order, the others unlinked |
| Lists.Entry.LinkedUnique | src/list.h:118-119 | the pointers determine the sequence: two sequences that fit one ring are equal |
| Lists.Entry.LinkThenUnlink | src/list.h:44-59 | linking an unlinked entry at any position and unlinking it restores every pointer |
| Lists.Entry.AddTailThenUnlink | src/list.h:54-73 | the same for adding at the tail |
| Lists.Entry.LinkedAfterUnlink | src/list.h:54-59 | after the two pointer writes of an unlink the nodes form the cycle of the shortened sequence, both ways round |
| Lists.Entry.LinkedAfterLink | src/list.h:44-51 | after the four pointer writes of a link the nodes form the cycle of the longer sequence, both ways round |
| IdPools.GetSound | src/id_pool.c:47-60 | a get keeps conservation and hands out an id that was not live; on an exhausted pool it fails and only `next` moves |
| IdPools.GetPops | src/id_pool.c:47-60 | seen as a stack of free ids (a slot never reached stands for its index plus one), a get pops the top |
| IdPools.ReleasePushes | src/id_pool.c:62-78 | a release pushes the id on that stack |
| IdPools.GetKeepsWFIff | src/id_pool.c:52-54 | a get leaves a pool whose next release stays inside the array if and only if there was capacity |
| IdPools.OverdrawnExample | src/id_pool.c:52-54 | the smallest pool on which a failed get makes the release of a live id write outside the array |
| IdPools.ReleaseSoundIff | src/id_pool.c:62-78 | a release keeps conservation if and only if the id is live or ignored |
| IdPools.GetReleaseRoundTrip | src/id_pool.c:47-78 | get then release restores the stack and the live ids |
| IdPools.ReleaseGetRoundTrip | src/id_pool.c:47-78 | release then get hands out the same id and restores the stack and the live ids |
| IdPools.FreshStack | src/id_pool.c:20-34 | a new pool stands for the stack 1, 2, ..., max |
| IdPools.EveryRun | src/id_pool.c:47-78 | over every legal run from a new pool: live ids and slots [next, hw) together are exactly {1..hw} without overlap, min(next, max) ids are live, and no id exceeds the most ids ever live together |
| IdPools.HighWaterIsPeak | src/id_pool.c:47-78 | the highest value of `next` is the peak of the number of live ids |
| IdPools.NextCountsCalls | src/id_pool.c:47-78 | `next` is gets, failed ones included, minus the releases not ignored |
| IdPools.IdPoolNew | src/id_pool.c:20-34 | error codes, and a pool that issues 1, 2, ... |
| IdPools.IdPoolGet | src/id_pool.c:47-60 | the array code carries out Get, on which the laws above are proved |
| IdPools.IdPoolRelease | src/id_pool.c:62-78 | the array code carries out Release; which ids are ignored, and what keeps the write in range |
| IdPools.IdPoolDestroy | src/id_pool.c:36-45 | null is refused; otherwise the array is gone |
| IdPoolThreads.GetPhase | src/id_pool.c:52-59 | any interleaving of the atomic steps of n gets ends as n gets in a row; the thread whose fetch-and-add came k-th has the k-th result; no access is out of range |
| IdPoolThreads.GetPhaseResults | src/id_pool.c:52-59 | hence ids issued in parallel are pairwise distinct, were not live, and exactly min(n, max - next) threads are served |
| IdPoolThreads.ReleasePhase | src/id_pool.c:70-77 | any interleaving of releases of distinct live ids ends as the same releases in a row: the compare-and-exchange claims distinct slots, the pool is well formed, exactly those ids are free again |
| IdPoolThreads.Progress | src/id_pool.c:73-75 | each step of an unfinished thread lowers a rank: a failed compare-and-exchange is paid for by the success that caused it |
| IdPoolThreads.BusyIsBounded | src/id_pool.c:73-75 | so no schedule makes the retry loops run for ever |
| IdPoolThreads.SafeIff | src/id_pool.c:47-78 | for any well-formed pool and any threads about to get or to release distinct live ids: no schedule does harm (an access outside the array, an id about to be issued to a second holder, two holders of one id, a holder of an id somebody else has) if and only if all of them get or all of them release |
| IdPoolThreads.OverlapHarms | src/id_pool.c:52-77 | any getter and any releaser have a schedule that does harm: outside the array if the pool is exhausted, else the released id is issued and comes next again |
| IdPoolThreads.MixedExample | src/id_pool.c:74-77 | the smallest instance, with a finished schedule in which the get returns an id that nobody releases |
| IdPoolThreads.NthIdsDiffer | src/id_pool.c:52-59 | consecutive gets on one pool return distinct ids |
| Resources.ResourceRefcountInc | src/resources.c:169-177 | the 32-bit counter goes up by one, wrapping; null is tolerated |
| Resources.ResourceRefcountDec | src/resources.c:179-187 | the 32-bit counter goes down by one, wrapping; null is tolerated |
| Resources.NewIdAgrees | src/resources.c:90-104 | appending the resource that got the next id keeps: live resources have distinct ids, and these are the ids the pool has out |
| Resources.OldIdAgrees | src/resources.c:151-155 | so does giving back the id of a live resource and unlinking it |
| Resources.Registry.ResourcesBootstrap | src/resources.c:42-54 | the empty registry, or out of memory; the lists are emptied whatever they held, and resources that were live are forgotten with their entries still linked |
| Resources.Registry.ResourceNew | src/resources.c:70-109 | every error code; on success the resource is last in the live list with the id the pool handed out, reference count 0; an exhausted pool changes nothing else |
| Resources.Registry.ResourceGetById | src/resources.c:111-128 | OK with a live resource of that id exactly when the id is live; on a miss the caller's pointer is kept and decides the return code |
| Resources.Registry.ResourceDestroy | src/resources.c:130-167 | refused while referenced, and then nothing changes; otherwise exactly this resource leaves the list, its id goes back, and its destructor runs once |
| Resources.Registry.ResourcesCleanup | src/resources.c:56-68 | every idle resource is destroyed, its destructor run once; the busy ones stay, in order, and theirs are the ids still out when the pool is freed |
| Resources.Registry.BlankAgain | src/resources.c:48-51 | a clean-up that left nothing leaves the list heads as the program starts with them |
| Resources.Registry.CleanupList | src/resources.c:61-65 | the loop over any of the lists, which unlinks its cursor: in list 0 it destroys exactly the idle resources, in the others it does nothing |
| Resources.ResourceCreateRundir | src/resources.c:189-216 | null and the three failures in order; the resource has a directory of its own exactly if it had one or all steps succeed |
| Sessions.FindRegistration | src/session.c:100-114 | the first container for the resource in list order, or none exactly when it is not registered |
| Sessions.SessRegister | src/session.c:73-98 | every error code; on success one more container, last in the list of the resource's type, and one more reference |
| Sessions.SessUnregister | src/session.c:116-145 | EINVAL exactly when the session does not hold the resource; otherwise the first container for it is gone and there is one reference fewer |
| Sessions.SessHasResource | src/session.c:147-152 | decides membership in the list of the resource's type |
| Sessions.SessionResources.Unregister | src/session.c:122-142 | the container removed is the first for the resource, and no other list of the session changes |
| Sessions.DrainTurn | src/session.c:196-200 | unregistering by the resource behind the cursor removes the container under the cursor, duplicates or not |
| Sessions.DrainList | src/session.c:196-200 | the safe loop frees exactly the containers of the list, in order, and lowers each count by its multiplicity |
| Sessions.CleanupSessionResources | src/session.c:188-214 | all lists drained, list by list in order; each resource loses as many references as it had containers here |
| SessionTables.GetSlot | src/session.c:234-249 | the id the pool hands out names an empty slot, and filling it keeps the table and the pool in agreement |
| SessionTables.UndoGet | src/session.c:253-262 | giving back an id just taken restores the pool's stack and live ids |
| SessionTables.ReleaseSlot | src/session.c:308-313 | giving back the id of a running session and clearing its slot keeps table and pool in agreement |
| SessionTables.SessionTable.SessionsBootstrap | src/session.c:51-63 | the empty table and a new pool, or out of memory |
| SessionTables.SessionTable.InitializeSessionResources | src/session.c:154-186 | every failure leaves the session as it was; success gives it six empty lists |
| SessionTables.SessionTable.SessInit | src/session.c:216-265 | every error code; success stores the session under its id; failure leaves the table and the ids to be handed out as they were; table and ids stay in agreement if and only if the session was not running already or no id was left |
| SessionTables.SessionTable.SessionsCleanup | src/session.c:65-71 | no session can be started any more, the pool is freed |
| SessionTables.SessionTable.SessFree | src/session.c:292-318 | the id is free again, everything registered is unregistered exactly once, the slot is empty |
| Runs.StepKeeps | src/session.c:73-318 | each of the six calls keeps all of: counts equal containers summed over all sessions and lists; nothing held dangles or is in a list of another type; ids agree with the pools; slot i taken exactly when id i+1 is out |
| Runs.EveryRun | src/session.c:73-318 | the same for the end of every run of the six calls from the start, and no session is in two slots |
| Runs.DestroyKeeps | src/resources.c:138-155 | destroying never leaves a dangling container: an idle resource has none |
| Runs.FreeKeeps | src/session.c:292-318 | ending a session keeps every count equal to the containers left |
| Runs.RegisterKeeps | src/session.c:93-95 | registering keeps the equation for every resource |
| Runs.UnregisterKeeps | src/session.c:140-142 | so does unregistering; the decrement never goes below zero |
| Runs.DestroyableIff | src/resources.c:138-155 | a destroy succeeds if and only if no running session holds the resource |
| Runs.RegisterCountsIff | src/session.c:93-95 | registering keeps count and containers equal if and only if the 32-bit counter is not at its maximum |
| Runs.NoSessionsNoCounts | src/resources.c:56-68 | when every session has ended every count is 0 |
| Runs.EachDestroyedOnce | src/resources.c:70-167 | over any run, creations of a resource are its destructions, plus one if it is live |
| Runs.CleanupCompletes | src/resources.c:56-68 | when all sessions of a run have ended cleaning up leaves no live resource, and then each creation of the run is matched by exactly one destruction |
| Runs.RunOverdraws | src/id_pool.c:52-54 | over any run, a pool ends overdrawn if and only if it began so or some call was answered that no id was left |
| Runs.LegalAfterRun | src/id_pool.c:74-77 | hence a running session may be ended if and only if no start of a session was refused for want of an id, and likewise for destroying an idle resource |
| Runs.FailedInitUndone | src/session.c:253-264 | a session that could not be started leaves table, live ids and the ids to come as they were |
| Runs.RegisterUnregister | src/session.c:73-145 | registering a resource and unregistering it is the identity if and only if the session holds nothing of its type behind the first container for it but more of the same |
| Runs.TotalZeroIff | src/session.c:73-98 | the sum over all sessions and lists is 0 exactly when no container refers to the resource |
| Runtimes.Runtime.Bootstrap | src/vaccel.c:176-187 | the bootstrapped heap shows the state the runs start from |
| Runtimes.Runtime.New | src/resources.c:70-109 | the heap code carries out the transition New of module Runs, and the heap shows the new state |
| Runtimes.Runtime.Destroy | src/resources.c:130-167 | likewise Destroy; EBUSY exactly when the resource stays live; the destructor runs once on success |
| Runtimes.Runtime.Init | src/session.c:216-265 | likewise Init, with every failure of the steps in it |
| Runtimes.Runtime.Free | src/session.c:292-318 | likewise Free; lists of other sessions are untouched |
| Runtimes.Runtime.Register | src/session.c:73-98 | likewise Register |
| Runtimes.Runtime.Unregister | src/session.c:116-145 | likewise Unregister; EINVAL exactly when the session does not hold the resource |
| Runtimes.Runtime.Cleanup | src/resources.c:56-68 | what the state says is in use stays, everything else is destroyed with one destructor run; with all sessions ended nothing stays and the lists are blank again |
| Runtimes.Runtime.SlotsStay | src/session.c:73-318 | lists of different sessions and the live list never interfere: entries belong to one owner |
| PluginRuns.StepKeeps | src/plugin.c:68-289 | every call keeps the two indexes in agreement: an operation is in its owner's list exactly once if and only if it is in the list of its type exactly once |
| PluginRuns.TurnAgrees | src/plugin.c:126-131 | unlinking an operation from both lists keeps the agreement, turn by turn |
| PluginRuns.NoneLeft | src/plugin.c:126-131 | once the owner's list is drained no operation of that owner is left in any type list |
| PluginHistory.ListIsHistory | src/plugin.c:151-178 | after any run the list of a type holds exactly the operations registered and not taken away since |
| PluginHistory.OrderIsHistory | src/plugin.c:169-171 | in the order of their registration |
| PluginHistory.LookupIsHistory | src/plugin.c:191-233 | after any run a lookup returns the earliest registered operation of the type that meets a non-zero hint, else the earliest of the type, and null exactly when there is none |
| PluginHistory.FirstMeetingIsFirst | src/plugin.c:211-222 | the search stops at the first operation that meets the hint |
| PluginHistory.NothingMatches | src/plugin.c:215-215 | a hint without bits meets no kinds |
| PluginHistory.EitherMatches | src/plugin.c:215-215 | a hint made of two meets what either of them meets |
| PluginHistory.OneBitMatches | src/plugin.c:215-215 | a hint of one bit meets exactly the kinds that contain it; with the two laws before, this says what every hint meets |
| PluginHistory.LookupChooses | src/plugin.c:211-228 | a lookup answers with the first operation that meets a non-zero hint, and with the first of all if there is no hint or none meets it |
| PluginHistory.LookupIsChosen | src/plugin.c:211-228 | the same, told by the bits the hint shares with the kinds of the owners |
| PluginHistory.UnregisterAnswer | src/plugin.c:110-149 | unregistering a plugin changes the answer of a lookup if and only if the answer was one of its operations |
| PluginHistory.RegisterAnswer | src/plugin.c:151-178 | registering an operation changes the answer for a type if and only if it is of that type and there was none, or it meets a non-zero hint nothing met before |
| PluginHistory.ShutdownDrains | src/plugin.c:266-289 | a shutdown empties the plugin list and calls the clean-ups in list order; it empties all operation lists if and only if every operation belonged to a registered plugin |
| PluginHistory.EachCleanedOnce | src/plugin.c:80-149 | over any run: successful registrations of a plugin equal its clean-up calls, plus one if it is registered still |
| PluginHistory.RegsInOrder | src/plugin.c:92-92 | the plugin list is in the order of registration |
| PluginHistory.VirtioRegisteredIff | src/plugin.c:110-149 | after unregistering, the VirtIO plugin is still a registered one if and only if another plugin was unregistered |
| Plugins.PluginState.RegisterPlugin | src/plugin.c:68-108 | every error code in the order of the checks; on success the plugin is last in the list, and it is the VirtIO plugin if it declares both calls and there was none; the heap carries out the transition Register |
| Plugins.PluginState.UnregisterPlugin | src/plugin.c:110-149 | every error code; on success the plugin and exactly its operations are gone and its clean-up call is made; the heap carries out Unregister |
| Plugins.PluginState.Retire | src/plugin.c:126-148 | the plugin leaves all lists even when its description is missing, and then no clean-up call is made |
| Plugins.PluginState.DrainOps | src/plugin.c:126-131 | walking the owner's list while unlinking from both: all its operations leave both indexes, all other rings are unchanged |
| Plugins.PluginState.OthersStay | src/list.h:44-59 | an operation on one ring leaves every other ring of the registry as it is |
| Plugins.PluginState.RegisterPluginFunction | src/plugin.c:151-178 | every error code; the operation becomes last in both its lists |
| Plugins.PluginState.RegisterPluginFunctions | src/plugin.c:180-189 | exactly the operations before the first that fails a check are registered, in order, and its code is returned; one registration never makes the next one of distinct operations illegal |
| Plugins.PluginState.GetPluginOp | src/plugin.c:191-233 | the function of the first operation whose owner shares a bit with the hint, or of the first operation if none does; null when there is none; it is what Lookup, the subject of the history laws, says |
| Plugins.PluginState.PluginsBootstrap | src/plugin.c:254-264 | all heads are emptied whatever they held; at program start this gives the empty registry, and on a running one what was registered still shows if and only if nothing was |
| Plugins.PluginState.BlankAgain | src/plugin.c:254-264 | a registry with nothing registered, as after a shutdown that drained everything, is one that can be bootstrapped |
| Plugins.PluginState.LoadPlugin | src/vaccel.c:40-54 | a plugin whose code has just been loaded is known and owns nothing |
| Plugins.PluginState.PluginsShutdown | src/plugin.c:266-289 | the loop that unregisters under its cursor terminates and carries out Shutdown |
| Plugins.PluginState.UnregisterAll | src/plugin.c:273-281 | each turn removes the plugin under the cursor and never the saved successor |
| Profiling.EveryRun | src/profiling/vaccel_prof.c:56-206 | over any run of init, start, stop and destroy, whatever fails: samples fit the capacity, which is 0 or 1024 * 2^k, and stay 64 bits wide |
| Profiling.OffDoesNothing | src/profiling/vaccel_prof.c:102-206 | with profiling off no call changes anything |
| Profiling.FreshAgain | src/profiling/vaccel_prof.c:144-206 | a destroyed region is empty and without memory; an initialised one is empty with its first 1024 places, or twice those it had |
| Profiling.SamplesSurvive | src/profiling/vaccel_prof.c:56-142 | starting keeps all samples taken, growth included; stopping changes at most the last time |
| Profiling.CopiesAmortised | src/profiling/vaccel_prof.c:56-100 | n starts from an empty region copy fewer than 2n samples over all reallocations |
| Profiling.CopiesAfterDestroy | src/profiling/vaccel_prof.c:183-206 | the same for the starts after a destroy, whatever came before |
| Profiling.TotalAfterDestroy | src/profiling/vaccel_prof.c:183-229 | totals after a destroy are about the visits after it only |
| Profiling.TotalWraps | src/profiling/vaccel_prof.c:221-223 | the total is the sum of the times modulo 2^64 |
| Profiling.TotalBalances | src/profiling/vaccel_prof.c:46-100 | for alternating starts and stops under a clock that does not go back, whatever allocation does: the total plus the intervals lost while there was no sample equals the intervals plus the gaps before refused starts; first start plus total is at most the last stop, so the 64-bit sum never wraps |
| Profiling.TotalIsIntervalsIff | src/profiling/vaccel_prof.c:88-142 | on a region that has memory the total is the sum of the intervals if and only if no refused start came later than the stop before it |
| Profiling.TotalIsIntervals | src/profiling/vaccel_prof.c:46-54 | if no start is refused every visit has its sample and the total is the sum of the intervals |
| Profiling.VisitsBalance | src/profiling/vaccel_prof.c:102-142 | the books balance after every visit, and the last sample ends at the last stop |
| Profiling.FailedStartStretches | src/profiling/vaccel_prof.c:94-96 | a start and a stop record their interval if and only if the array had room or could grow; otherwise the sample before is stretched up to this stop, or the interval is lost when there is none |
| Profiling.ProfRegion.GrowSamplesArray | src/profiling/vaccel_prof.c:56-69 | doubles, or starts with 1024; keeps every sample; without memory nothing changes |
| Profiling.ProfRegion.GetNextSample | src/profiling/vaccel_prof.c:88-100 | the first unused sample, growing only when full |
| Profiling.ProfRegion.GetLastSample | src/profiling/vaccel_prof.c:73-82 | the last used sample, or none |
| Profiling.RegionStart | src/profiling/vaccel_prof.c:102-121 | every return code; off or without memory nothing changes, otherwise one more sample that starts now, the others kept, memory doubled only if full; the array code carries out Start |
| Profiling.RegionStop | src/profiling/vaccel_prof.c:123-142 | every return code; off nothing changes, otherwise the last sample ends now and no other changes; the array code carries out Stop |
| Profiling.RegionInit | src/profiling/vaccel_prof.c:144-181 | every return code; off or without a name nothing changes, otherwise no samples and, with memory, 1024 places or twice those before |
| Profiling.RegionDestroy | src/profiling/vaccel_prof.c:183-206 | off nothing changes; otherwise the region has no samples, no memory and size 0 |
| Profiling.RegionPrint | src/profiling/vaccel_prof.c:208-229 | the loop reports the sum of the times of all used samples modulo 2^64 |
| Transactions.TfSavedModelRegister | src/resources/tf_saved_model.c:328-403 | every return code, by the first step that fails; either exactly one new live resource with a fresh id and count 0 and, without a path of its own, all three files on disk, or the live list, the ids out and the ids to come are what they were; what becomes of each file, and after a failure nothing of the model is on disk if and only if every file written before the failing step could be removed, and so could what that step itself had written |
| Transactions.ModelWorksIff | src/resources/tf_saved_model.c:365-388 | registering in memory works if and only if every single step works, named one by one |
| Transactions.FirstFailure | src/resources/tf_saved_model.c:365-388 | otherwise the code returned is that of the first step that failed |
| Transactions.PersistWorksIff | src/resources/file.c:63-157 | a file is written out if and only if it is in memory, has no path, its directory is there and writing works |
| Transactions.RollbackClearsIff | src/resources/tf_saved_model.c:375-398 | the condition under which nothing stays on disk, for the files alone |
| Transactions.RetryIff | src/resources/tf_saved_model.c:365-398 | a model held in memory can still be registered after a failed attempt if and only if that attempt had not written the first file out, removed again or not |
| Transactions.RegistrableIff | src/resources/file.c:68-100 | some outcome of the steps lets a registration succeed if and only if all three files are in memory and without a path |
| Transactions.SavedModel.PersistFiles | src/resources/tf_saved_model.c:375-388 | the files are written in order up to the first failure, and what each of them is then |
| Transactions.SavedModel.Destruct | src/resources/tf_saved_model.c:31-39 | the destructor tries to remove what was written; neither data nor paths are forgotten |
| Transactions.FilePersist | src/resources/file.c:63-157 | the checks in order; on failure data and path are as before, and something stays on disk exactly if it was created and could not be removed |
| Transactions.FileDestroy | src/resources/file.c:196-229 | only a file the library wrote is removed, if that works; the path stays set and a failed removal is not reported |
| Transactions.SharedObjectNewFromBuffer | src/resources/shared_object.c:65-107 | the same for shared objects; what becomes of the file, and after a failure something new is on disk exactly if writing it failed half-way and it could not be removed |
| Transactions.Rollback | src/resources/tf_saved_model.c:397-402 | destroying what was just created restores what clients see, and runs the destructor once |
| Transactions.NewResource | src/resources.c:70-109 | a new resource gets an id that was neither live nor out; when ids are exhausted clients see no change |
| Transactions.GetShows | src/id_pool.c:47-60 | the id taken is the next of those to come, and is not in use |
| Transactions.ReleaseShows | src/id_pool.c:62-78 | the id given back is the next to come |

## Left out

- VirtIO: ids and results that a VirtIO plugin supplies (`src/session.c:84-91`, `src/resources.c:83-92`), being foreign calls.
- Loading: dlopen, dlsym, environment variables and the bodies of plugins. A clean-up call is an entry in a list, a destructor a counter.
- Files: directories, paths, persistence, mmap. Where a caller branches on a result, it is a parameter; `rundir` is a flag.
- Operation front-ends (`src/ops`), logging, examples and the dummy plugins: dispatch settled by reading one branch.
- Parallel use of the lists: they have no synchronisation in the C code either.
- IdPools.IdPoolGet: `next` is an unbounded integer; the int of the C code overflows after 2^31 failed gets without a release.
- Memory: freed objects are unreachable objects; use after free is excluded by what the callers have to see to.
- Plugins: the fields of an operation other than its two entries, and a plugin's description, do not change after they are set.
- Profiling: region names, the functions over arrays of regions, printing to a buffer; `vaccel_prof_regions_clear` leaves `nr_entries` set and is no operation of the model. A 64-bit overflow of the capacity is not modelled.
- Profiling.TotalBalances: a sample that was started and not stopped holds whatever its memory held, so totals are about runs in which each start is stopped.
- Transactions.TfSavedModelRegister: directories and the mapping of file data into memory. Only files are followed: in a roll-back the directory `variables`, once made, stays, because the destructor looks for it through `model->resource`, which is set on success only (`src/resources/tf_saved_model.c:42-54`, `:393`).
- `vaccel_sess_update`, `get_available_plugins`: one assignment, one loop of log messages.
