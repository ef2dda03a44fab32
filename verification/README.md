# Directory synchronisation, modelled and proved

The program keeps a local base of helper accounts in step with a remote SCIM directory.
An incremental cycle asks for everything modified since a checkpoint, less an overlap; a
full cycle walks the whole directory and reports drift. Every record goes through one
upsert, which may create, update, enable or disable an account, and then writes the
account's id back to the directory as `externalId`. Records can be edited while they are
walked, any call can fail, and the process can stop between any two effects.

## How the model is laid out

* The durable state is a `Protocol.World`: the directory's records and table of bound
  externalIds, the accounts by directory id, the id counter and the checkpoint.
  `Protocol` says, as functions on it, what one record does; `Pager` what the walker decides
  after a page and what the directory puts on one.
* `Cycle` is the state machine: directory edits, the beginning of a cycle, page reads, single
  records (each with the fault that hits its effects), the end of a cycle, and a stop.
  Theorems about runs hold for every sequence of these events. `Cycle.History` is looked at
  by proofs only.
* `MemoryStore.Store`, `FakeDirectory.Directory` and `Syncer.Syncer` are classes in the form
  of the program: two indexes over shared cells, records changed in place, a reconciler that
  walks page by page while its environment edits the directory and makes calls fail. Each
  method's contract ties the new state to the functions of `Protocol`. `Syncer.Incremental`
  and `Syncer.Full` promise, besides, a trace: a run of the machine, every event of which
  the environment accounts for (`Environs`), that ends in their state and report. So theorems
  about runs carry over to them; their contracts state no lost update outright, from what the
  environment does.
* `Client`, `Retry` and `Throttle` are the SCIM client: the page walk over an arbitrary server,
  the retry loop in the machine integers of the source, the leaky bucket.
* The other modules hold one theorem each, with what it needs: `NoLostUpdate`, `PromptEdits`,
  `PassedOver`, `LateEdit`, `UnusableInView`, `RepairInPlace`, `Frontier`, `CalmCycle`, `QuietWalk`, `CrashRecovery`, `DryRun`, `OrderIndependence`,
  `Fixpoint`, `Conservation`, `WrittenBack`, `Witness`, `Listing`, `Serving`, `Bindings`, `CreateRace`. `Snapshot` is the
  walk in one piece they compare against.

Times are integers in nanoseconds with 0 as the zero time. Clocks, random draws, cancellations,
server answers and the failures of calls are parameters.

## Premises

* Directory ids other than the empty one are distinct (`Records.DistinctIds`).
* One cycle at a time, as the daemon serialises them (`cmd/directorysyncd/main.go:116-121`).
  `CreateRace` is the exception.
* The overlap is positive. The constructor defaults only 0, so a negative one would pass.
* An update can be lost: when a record is edited behind a walk's back and that walk ends with a
  checkpoint whose filter no longer reaches the edit (`LateEdit.LateEditIsLost`). That is the only
  way, record by record: `PassedOver.NeverLostIff` gives the exact condition for a record edited
  within the reach of the filter in force, whatever happens to the others. `PromptEdits` and
  `Environs` put a sufficient premise in terms of events alone and of what others do. Edits of other
  records need only keep ids and not take records out of the filter of a walk under way.
* Unusable records stay in view under that last premise alone, and a repair in place is never lost.
* The pager is complete while records join the directory anywhere and are edited; the model's machine
  has the edits of the fake directory, which adds no records.
* The directory serves a short page only at the end, as the client assumes
  (`scim/client.go:196-201`) and the fake keeps (`scimtest/scimtest.go:255-263`). Section 3.4.2.4
  of RFC 7644 would allow others. Termination does not need it.

## Where the code and its documentation part

* The backoff is documented as half the exponential delay plus a random half, without any wait
  collapsing to zero (`scim/client.go:358-360`). From attempt 35 on the product overflows int64:
  apart from eight attempts where the overflow is harmless, attempts 35 to 55 ask the random source for an
  empty range, which panics, and from 56 on the wait is zero. `Retry.BackoffSoundIff` gives the exact set.
* A PATCH with an empty value is accepted by the fake and binds the empty string, so its table
  stops being the inverse of the records (`scimtest/scimtest.go:306-330`). `Bindings.PatchInverseIff`
  gives the exact condition. The reconciler never sends one (`directory/directory.go:464-466`).

## Model

| member | source | states |
|---|---|---|
| NoLostUpdate.NoneElseIsLost | directory/directory.go:249-319 | over any run of edits, incremental and full cycles, failures and stops: every stamped record behind the filter is usable and agrees with its local account, for all records edited within view and passed over by no walk, whatever becomes of the rest |
| NoLostUpdate.NoLostUpdate | directory/directory.go:249-319 | hence, when that holds of every record, no update is lost at all |
| NoLostUpdate.StampInTimeReaches | directory/directory.go:174-178 | the filter reaches every stamp less than the overlap behind the checkpoint, and for the dropped fraction not a second more |
| PassedOver.NeverLostIff | directory/directory.go:288-319 | the exact condition: a record edited within view is never lost in a run if and only if no walk ends that stores a checkpoint past it while it was edited behind that walk and differs from its account |
| PassedOver.FinishSoundIff | directory/directory.go:293-319 | the end of a walk leaves every record outside a set sound if and only if it passes over none of them |
| NoLostUpdate.FreshIsSound | directory/directory.go:174-178 | with no checkpoint everything is in view, so a store that has never synchronised meets the start condition of the run theorem |
| PromptEdits.PromptEditsAreNotLost | directory/directory.go:249-319 | from a premise about events alone: no update is lost of a record each of whose edits is in reach of the filter from the checkpoint in force and from every stamp served by the end of any walk it falls in, however late the edits of other records are |
| PromptEdits.PromptIsTimely | directory/directory.go:302-319 | that premise implies the one of the run theorem |
| Environs.CycleKeepsSound | directory/directory.go:162-241 | no update is lost by one cycle of the reconciler of a record whose edits are in view of the checkpoints before and after it, however late the edits of other records are |
| UnusableInView.StaysInView | directory/directory.go:265-280 | once an incremental cycle has read a stamped unusable record, or would read it next, the record passes the filter of every later incremental cycle until it changes, across any mix of succeeding, failing and stopped cycles, even if other updates are lost |
| UnusableInView.UneditedStaysInView | directory/directory.go:265-295 | a stamped unusable record in view that nobody edits is never changed by any cycle and is in view in every reachable state |
| RepairInPlace.RepairIsNeverLost | directory/directory.go:265-295 | an unusable record in view that is repaired under the stamp it had is never lost, whether the repair falls before, during or after the walks that read it, whatever fails and whatever happens to other records |
| RepairInPlace.RepairIsApplied | directory/directory.go:265-295 | and the first calm cycle that succeeds afterwards leaves the account as the repaired record asks |
| NoLostUpdate.UnusableIsInView | directory/directory.go:265-280 | under the premises of no lost update, every stamped unusable record outside the excepted ones is in view in every reachable state, whenever it became unusable |
| LateEdit.LateEditIsLost | directory/directory.go:288-319 | a concrete run, timely until the end of a walk passes over an edit, after which a closed record's account stays enabled and no incremental cycle asks for it again |
| Frontier.NeverRetreats | directory/directory.go:302-319 | over any run the checkpoint never goes back |
| Frontier.FinishTakesMark | directory/directory.go:162-187 | only the end of a walk that went through, in a real run whose store accepts, changes the checkpoint; a failed or stopped cycle never does |
| Frontier.CheckpointIsStamp | directory/directory.go:286-319 | a checkpoint that has moved is the stamp of a record the directory served earlier in the run, at most the skew allowance ahead of the local clock |
| Frontier.QuietCycleMovesCheckpoint | directory/directory.go:293-319 | after a successful quiet cycle the checkpoint is the one value that overtakes no stamped unusable record and reaches as far as the usable ones otherwise, if later than before and not implausibly far ahead |
| Frontier.FinishSucceedsIff | directory/directory.go:299-319 | the end of a walk succeeds if and only if the store accepts the checkpoint or there is none to store, and reports the one in force |
| Frontier.IncrementalReportsNoDrift | directory/directory.go:162-187 | however an incremental cycle ends, it reports no drift |
| Frontier.FailuresAreReported | directory/directory.go:162-241 | a stopped or failed walk reports failure with what it had counted and no checkpoint, a refused checkpoint the one it started from; none moves it |
| Frontier.WatermarkIsUnique | directory/directory.go:265-295 | that description leaves one value |
| CalmCycle.CalmCycleSucceedsIff | directory/directory.go:249-297 | a cycle of the reconciler with no edit and no failure succeeds if and only if its snapshot holds no more unusable records than the limit allows; it has then applied all of it once, in order, and every usable record agrees with its account |
| CalmCycle.CalmCycleReconciles | directory/directory.go:162-241 | after a calm successful cycle a usable record agrees with its account, if the cycle was full or the record was not lost before |
| CalmCycle.CalmCycleReconcilesAll | directory/directory.go:162-241 | so over a sound state every stamped usable record does |
| QuietWalk.QuietWalkAppliesSnapshot | scim/client.go:154-203 | whatever the page size, and although its write-backs change the directory under it, an undisturbed walk applies exactly the snapshot it began with, once each, in order |
| QuietWalk.AppliesPrefix | scim/client.go:154-203 | at every moment of such a walk the records applied are a prefix of the snapshot, the state is the snapshot scan's after that prefix, and the rest of the page is the prefix's continuation |
| CrashRecovery.StopIsFree | directory/directory.go:337-379 | stopping a walk at any record, between any two effects, and walking again ends in the accounts, ids, bindings and externalIds of the walk never stopped |
| CrashRecovery.CrashesAreFree | directory/directory.go:4-7 | the same for any number of stops in a row |
| CrashRecovery.CrashAnywhereIsFree | directory/directory.go:162-241 | in the machine: a cycle of either kind broken off anywhere and started again ends with the accounts, ids, bindings and externalIds of the same cycle run through |
| CrashRecovery.CrashesAnywhereAreFree | directory/directory.go:162-241 | the same for any number of attempts in a row, each broken off anywhere |
| CrashRecovery.DoneIsNoop | directory/directory.go:373-378 | applying a record that asks for nothing more, such as the echo of a write-back, changes nothing |
| CrashRecovery.ApplySame | directory/directory.go:337-379 | applying a record has the same effects, success and conflicts in states that differ in stamps only |
| DryRun.DryRunPredicts | directory/directory.go:397-471 | from equal states, when the real walk succeeds the dry one does, changes nothing, and reports the same counters and watermark, its write-backs being the real write-backs and conflicts together |
| DryRun.DryCyclePredictsCycle | directory/directory.go:189-241 | the same for whole cycles of the machine, drift included |
| DryRun.DryRunLeavesNoTrace | directory/directory.go:312-314 | over any run with no edits a dry reconciler changes neither store, directory nor checkpoint, whatever fails or stops |
| DryRun.DryRunPredictsDrift | directory/directory.go:203-233 | a dry full walk reports the drift of the real one |
| DryRun.DriftIsExact | directory/directory.go:203-233 | the drift report equals the three lists defined from store and directory before the walk, although absence is computed after it; an id met only on an unusable record is not absent |
| DryRun.FullCycleDriftIsExact | directory/directory.go:189-241 | so does the report of a quiet full cycle of the machine, real or dry |
| OrderIndependence.OrderIndependence | directory/directory.go:249-297 | permuting a walk's records changes neither whether it succeeds, nor any state-change counter, the write-backs attempted, the watermark, or the state of any account |
| Snapshot.ScanHelppers | directory/directory.go:337-379 | after a walk each usable record's account is as the record asks and keeps its id, and every account no usable record names is untouched |
| Snapshot.ScanCounts | directory/directory.go:337-461 | every counter of a walk, read off the snapshot and the accounts before it |
| Snapshot.ScanSucceeds | directory/directory.go:276-279 | a walk with no fault fails if and only if it meets more unusable records than the limit |
| Snapshot.ScanMarks | directory/directory.go:265-291 | the watermark's two parts are the newest usable and the oldest stamped unusable stamp of the snapshot |
| Snapshot.ScanObserves | directory/directory.go:207-220 | what a full walk observes of drift, and whom it has seen, in terms of the accounts before it |
| Fixpoint.WriteBackSettles | directory/directory.go:373-378 | after as many quiet full walks as there were mismatched records the directory is stuck, and no later walk changes a binding |
| Fixpoint.WalkMovesOrSticks | directory/directory.go:463-491 | each full walk leaves fewer mismatched records, or changes no binding and leaves only records in conflict |
| Fixpoint.RefusalExplained | scimtest/scimtest.go:308-314 | each identity still refused leads, from owner to owner of the wanted values, back to itself or to an identity never written back, in at most as many steps as there are records |
| Fixpoint.StuckStays | directory/directory.go:478-489 | once every mismatched record is in conflict, further walks change no binding |
| Fixpoint.FullCycleIsFullWalk | directory/directory.go:189-241 | the full walk these speak of is what a quiet full cycle of the machine does |
| Conservation.CycleConserves | directory/directory.go:337-461 | a cycle that ends anywhere in any run has classified every record it scanned, all but at most one if it failed; the accounts have grown by exactly created and the enabled ones by created + enabled - disabled since it began |
| Conservation.ApplyConserves | directory/directory.go:337-379 | the same for one record under any fault |
| WrittenBack.ApplyDelivers | directory/directory.go:337-379 | under any fault, a record applied with success has had one write-back or conflict counted if and only if it wanted one, and in a real run its value is then on every record of the identity or held by another |
| WrittenBack.SuccessWritesBack | directory/directory.go:249-297 | a real cycle that ends well has counted as many write-backs and conflicts as it applied records that wanted one, and each of those is bound at its end or was in conflict when applied, whatever failed elsewhere |
| WrittenBack.WishesAreCounted | directory/directory.go:463-491 | at every moment of a walk the two counters together are the records applied that wanted a write-back |
| WrittenBack.BoundStays | scimtest/scimtest.go:308-330 | an account id bound to its identity stays so in every later state |
| WrittenBack.LostReplyIsPerformed | directory/directory.go:473-490 | a PATCH whose reply is lost has been performed, and fails the record |
| WrittenBack.AcceptedIsStamped | scimtest/scimtest.go:323-330 | an accepted value is on every record of the identity, stamped one second later, and changes nothing else |
| Witness.DisabledByWitness | directory/directory.go:226-233 | in any run an enabled account is disabled only by a usable record with its id and active=false, read from the directory and applied; it is never dropped |
| Witness.CreatedByWitness | directory/directory.go:347-353 | an account comes into being only on an active usable record read from the directory |
| Witness.AccountsStay | directory/directory.go:226-233 | over any run no account is dropped or given another id |
| Witness.StepWitness | directory/directory.go:337-379 | one step leaves an account alone or applies a usable record of its id and leaves it as that record asks |
| Effects.ApplyConfined | directory/directory.go:337-379 | a record touches its own account and directory entry only, an unusable one nothing, a usable one leaves its account as asked or fails with nothing changed |
| Effects.ApplyLeaves | directory/directory.go:337-461 | a usable record applied with success leaves its account enabled, named and addressed as the record is, or is inactive and has none |
| Effects.ApplyValid | directory/directory.go:337-379 | whatever fails, accounts stay under their own directory id with distinct ids already issued |
| Effects.ApplySucceeds | directory/directory.go:337-379 | with no fault a record the directory knows is always applied |
| Effects.VisitConfined | directory/directory.go:255-292 | the callback keeps to that and moves the hold-back for unusable records only |
| Serving.ListingIsExact | scim/client.go:141-204 | over the network, retries included: against a quiet directory a listing ends with exactly the matching records, once each and in order, unless a page fails for good |
| Serving.ReliableNeverFails | scim/client.go:154-158 | with every request answered at once no page fails, one request a page |
| Serving.ListingIsComplete | scim/client.go:141-204 | against a directory that grows from request to request, a listing that ends well has handed every record that matched when it began to fn |
| Serving.HeardIsServed | scim/client.go:154-158 | the pages a walk is answered are the pages behind what it has read, of the directory as it was at that request |
| Listing.CompleteOnGrowingDirectory | scim/client.go:154-203 | if between page reads records only join the directory, anywhere in it, or are edited into the filter, a listing that ends well has called fn on every record that matched at the start |
| Listing.ExactOnSettledDirectory | scim/client.go:154-203 | if the only changes are the walk's own, it visits exactly the starting snapshot, once each, in order, and no guard trips |
| Client.RunningPosition | scim/client.go:155-197 | a walk under way has visited every record it was sent and asks next for the page that begins behind them |
| Client.EndOfPageDecision | scim/client.go:183-201 | from the responses alone: a page handed over is refused if and only if it begins as the one before, given up at the bound if and only if not, and otherwise the walk is over when the page is short or all is read and goes on when not |
| Client.NoRepeatPasses | scim/client.go:183-190 | a walk that goes on or ends well was never answered two pages in a row that begin with the same record |
| Client.HandsUpTo | scim/client.go:170-181 | a page is handed over up to the first record that does not decode, or up to and including the first that fn rejects |
| Client.RunningIsBounded | scim/client.go:163-199 | a walk still running has read fewer pages than the first response's total allows, for arbitrary answers |
| Client.TerminatesOnAnyServer | scim/client.go:154-203 | against any server the walk has ended after max(1, T1/pageSize + 8) pages |
| Client.ListUsers | scim/client.go:141-204 | the loop visits the records and ends with the outcome that what the server answers its calls determines, in at most that many pages and that times max(0, maxRetries) + 1 requests |
| Client.TakePage | scim/client.go:159-202 | one response is handed over, guarded and decided on as its specification says |
| Client.HandOver | scim/client.go:169-181 | the records of a page reach fn in order until one does not decode or is rejected |
| Client.ReadPage | scim/client.go:106-133 | one page costs at most max(0, maxRetries) + 1 requests, with startIndex and count normalised |
| Retry.Do | scim/client.go:254-280 | the loop returns the answer, requests and backoff time of its specification |
| Retry.AttemptsBounded | scim/client.go:261-279 | at most max(0, maxRetries) + 1 requests; an answer is the first reply that is not to be retried |
| Retry.AnswersWithFirstFinal | scim/client.go:261-279 | undisturbed, the loop answers with the first final reply, whatever waits the server imposes, and fails only when it has no attempt left; it has slept the backoff and the imposed waits |
| Retry.FailsOnlyIf | scim/client.go:261-279 | it fails only if a request is disturbed or every request it may make asked for another try |
| Retry.SleepBounded | scim/client.go:270-276 | with up to 35 retries nothing panics and backoff sleeps within the sum of the documented delays |
| Retry.NoPanicIff | scim/client.go:261-279 | the loop is free of panics against every server if and only if it makes at most 35 retries |
| Retry.BudgetClosed | scim/client.go:361-367 | that sum in closed form for every number of retries |
| Retry.BackoffSoundIff | scim/client.go:358-367 | the documented range is met by every draw if and only if the attempt is at most 34 or one of eight later ones; any other attempt panics or does not wait |
| Retry.JitterReachesAll | scim/client.go:358-367 | up to attempt 34 every wait of the documented range comes from some draw |
| Throttle.Limiter.constructor | scim/limiter.go:18-23 | the interval is a second over the rate, rounded down, or 0 for a rate of zero or less; the first slot is free |
| Throttle.Limiter.Wait | scim/limiter.go:27-44 | a call gets the first free slot not before now, which it keeps when cancelled, and the next is an interval later; it may go on unless its context is done or its sleep is cancelled; interval 0 disables the throttle |
| Throttle.Limiter.WaitAll | scim/limiter.go:27-44 | a sequence of calls gets exactly the slots of the specification |
| Throttle.SlotsAreSpaced | scim/limiter.go:27-44 | slots are at least the interval apart and none is before its call |
| Throttle.SlotsAreEarliest | scim/limiter.go:27-44 | no first-come schedule with that spacing serves any call earlier |
| Throttle.WindowBound | scim/limiter.go:27-44 | any window of width W holds at most ceil(W/interval) slots, cancelled waits included |
| CreateRace.RaceIsSafe | directory/directory.go:347-424 | under every interleaving of any number of workers, dying anywhere, each identity is created at most once, the re-read never misses, every externalId sent is the identity's account id, and none is shared |
| CreateRace.WorkerFinishes | directory/directory.go:347-424 | progress under every interleaving: a worker that takes up a record and makes three moves of its own without dying is free again, the record has an account and its id has been sent if the record lacked it; some worker created the account if there was none, and this one unless another did |
| CreateRace.TakesUp | directory/directory.go:337-353 | a free worker takes up exactly the usable records that are active or have an account |
| CreateRace.MovesConverge | directory/directory.go:407-461 | an account created, or found and updated, is as the record asks |
| CreateRace.SendsForGood | directory/directory.go:463-491 | a value sent for a record of the directory is in it then, or another identity holds it |
| CreateRace.StepKeeps | store/memory/memory.go:54-75 | every step of every worker keeps the invariant behind that |
| Bindings.PatchInverseIff | scimtest/scimtest.go:290-337 | a PATCH keeps the table the exact inverse of the records if and only if it is refused or carries a value; a refused one changes nothing |
| Bindings.PatchesKeepInverse | scimtest/scimtest.go:300-333 | any sequence of non-empty patches keeps it |
| Bindings.OnlyExternalIdIsWritable | scimtest/scimtest.go:300-330 | whatever patches are sent, only externalId and the stamp of a record ever change, and patches of other attributes change nothing |
| Bindings.EmptyValueBreaksInverse | scimtest/scimtest.go:306-330 | accepting the empty value always breaks it |
| Bindings.TabledIsInverse | scimtest/scimtest.go:71-77 | the table of a fresh directory without shared values is that inverse |
| Bindings.InverseIsInjective | scimtest/scimtest.go:308-314 | two records never share a value |
| Bindings.ReboundSame | scimtest/scimtest.go:315-322 | binding afresh a value the record holds changes no binding |
| FakeDirectory.Directory.constructor | scimtest/scimtest.go:71-80 | builds the records and their table |
| FakeDirectory.Directory.Touch | scimtest/scimtest.go:147-158 | edits and stamps the first record with the id, and nothing else |
| FakeDirectory.Directory.List | scimtest/scimtest.go:223-278 | serves one page of the records the filter lets through, with their number |
| FakeDirectory.Directory.Patch | scimtest/scimtest.go:290-337 | one operation: refuses, or releases the identity's old bindings, binds the value and stamps the record |
| FakeDirectory.Directory.Release | scimtest/scimtest.go:315-321 | deletes exactly the identity's bindings to other values |
| FakeDirectory.Directory.Stamp | scimtest/scimtest.go:323-330 | sets the value of every record with the id and stamps it a second later |
| Pager.RankEmbeds | scimtest/scimtest.go:246-252 | a record's position among the matching ones never falls while records join the directory anywhere and none falls out of the filter |
| Pager.RankGrows | scimtest/scimtest.go:246-252 | the same when records join at the end only |
| Pager.PageSlice | scimtest/scimtest.go:255-263 | a page is a slice of the matching records, short only at their end |
| Pager.PageBoundary | scim/client.go:183-201 | on a fixed snapshot with distinct ids the decision after a page is to go on to its end or to stop there, and no guard trips |
| MemoryStore.Store.constructor | store/memory/memory.go:28-39 | an empty store with the counter at 900000 and no checkpoint |
| MemoryStore.Store.HelpperByDirectoryID | store/memory/memory.go:44-52 | looks up the one map both indexes describe |
| MemoryStore.Store.CreateHelpper | store/memory/memory.go:54-75 | refuses a known directory id, else adds one account under an id never issued before |
| MemoryStore.Store.NewID | store/memory/memory.go:61-62 | the counter's next rendering is no account's id |
| MemoryStore.Store.UpdateHelpper | store/memory/memory.go:77-89 | an update by account id is seen through the directory-id index, and reports whether the account exists |
| MemoryStore.Store.EnabledHelppers | store/memory/memory.go:91-102 | the enabled accounts, exactly, in strictly increasing directory id |
| MemoryStore.Store.AccountsAreValid | store/memory/memory.go:19-26 | two indexes over shared cells describe one map in which no account id occurs twice |
| MemoryStore.Store.SetCheckpoint | store/memory/memory.go:110-115 | overwrites the checkpoint |
| MemoryStore.SortByDirectoryID | store/memory/memory.go:129-131 | a permutation in which no account precedes one with a smaller directory id, whether or not ids repeat |
| MemoryStore.UpdateIsPointwise | store/memory/memory.go:77-89 | since ids are unique, an update by account id changes one directory id's account |
| Effects.CreatedIsValid | store/memory/memory.go:54-75 | creating an account keeps ids distinct and issued |
| Decimal.RenderInjective | store/memory/memory.go:61-62 | two counters never render alike, so ids are never reused |
| Decimal.RenderIsDecimal | store/memory/memory.go:61-64 | an id is the counter in decimal digits without a leading zero |
| Ordering.LessIsFirstDifference | store/memory/memory.go:129-131 | ids are ordered by their first difference, a prefix coming first |
| Ordering.SortedUnique | store/memory/memory.go:129-131 | a set of ids has one strictly sorted enumeration |
| Records.PrimaryEmailIsEarliestPrimary | scim/types.go:65-76 | the first email marked primary, else the first, else the user name |
| Records.UsableIff | directory/directory.go:381-395 | a record is usable if and only if it has an id, an active flag, and a user name or a non-empty standing address |
| Records.FilterIsStrict | directory/directory.go:174-178 | the bound of an incremental cycle is the whole second at or before the overlap behind the checkpoint, and a record stamped exactly there is not served |
| Protocol.NormalizedOptions | directory/directory.go:135-146 | an option left at zero takes its default and any other value is kept |
| Syncer.Syncer.constructor | directory/directory.go:122-157 | the options with their defaults, and no alert raised |
| Syncer.Syncer.Incremental | directory/directory.go:162-187 | the state, statistics, checkpoint and success of one incremental cycle are those of a run of the machine whose every event the environment accounts for, edits with what they make of the record; and no update is lost if those edits are in time |
| Syncer.Syncer.Full | directory/directory.go:189-241 | the same for a full cycle, with its drift report, and the alarm raised if and only if the walk went through and the report is not empty |
| Syncer.Syncer.WalkWith | directory/directory.go:247-297 | walks every page, ending over or broken as the machine does |
| Syncer.Syncer.OnePage | scim/client.go:154-203 | one page read and handed over, edits and failures in between, leaving the machine where the client's decision does |
| Syncer.Syncer.HandRecord | directory/directory.go:255-292 | one record handed over after whatever others do first, as the machine takes it |
| Syncer.Syncer.OnRecord | directory/directory.go:255-292 | the callback: record, drift, hold-back, limit, watermark and alerts |
| Syncer.Syncer.Advance | directory/directory.go:299-319 | moves the checkpoint to a newer, plausible watermark in a real run; alerts once about an implausible one |
| Syncer.Syncer.Apply | directory/directory.go:333-379 | the upsert on the live store and directory, with the alerts of an unusable record and of a conflict |
| Syncer.Syncer.ApplyUsable | directory/directory.go:345-379 | the same for a usable record, whose lookup may fail |
| Syncer.Syncer.ApplyNew | directory/directory.go:347-359 | a record without an account: skipped when inactive, else created and written back |
| Syncer.Syncer.ApplyKnown | directory/directory.go:365-378 | a record with one: state first, then the id if the directory has another |
| Syncer.Syncer.EnsureHelpper | directory/directory.go:397-425 | creates the account or takes the one another worker created; a dry run invents a placeholder |
| Syncer.Syncer.SyncState | directory/directory.go:427-461 | brings the account to the record's state and counts the change once |
| Syncer.Syncer.UpdateAccount | directory/directory.go:436-444 | the update by account id changes exactly the account just read by directory id |
| Syncer.Syncer.WriteBack | directory/directory.go:463-491 | sends the id; a conflict is counted, alerted once, and does not fail |
| Syncer.Syncer.AlertOnce | directory/directory.go:493-507 | raises exactly the first time a key occurs |
| Syncer.AlertKeys | directory/directory.go:337-345 | an unusable record alerts under its own key, a conflict under the identity's, and nothing else does |
| Syncer.ImplausibleIsHeldBack | directory/directory.go:302-311 | the alert about a watermark is raised if and only if a real run holds the checkpoint back although the watermark is newer |
| Syncer.Syncer.HoldBackAt | directory/directory.go:270-274 | keeps the oldest stamp of the unusable records met |
| Syncer.Syncer.Observe | directory/directory.go:207-220 | a full walk's observations of one record, from the state before the upsert |
| Syncer.Syncer.AbsentAccounts | directory/directory.go:222-233 | the enabled accounts the walk did not meet, in order |

## Left out

- HTTP, headers, TLS, JSON and error bodies: an attempt is its result; a response that is not a list response is one of the failures of a page.
- The PostgreSQL store, its migrations and locks: the in-memory store stands for the store's contract.
- The conformance suite and its command: independent probes of a directory, with no shared state.
- The daemon's flags, signals, tickers, metrics and health endpoints, beyond cycles being serialised.
- Log lines and alert texts: alerts are the set of keys already raised.
- Cycle durations, the fake's request counter and log of patches.
- MemoryStore.Store.CreateHelpper: does not state the creation and update timestamps of the account, which nothing reads.
- MemoryStore.Store.UpdateHelpper: does not state the update timestamp, for the same reason.
- A failure to read the checkpoint: such a cycle ends before it does anything.
- The fake's test hooks Bind, FailNext, RespondNextRaw and IgnoreStartIndex: any page read or effect may fail instead, and `Client` meets arbitrary servers.
- FakeDirectory.Directory.Patch: does not take several operations in one request, which the client never sends and the fake applies one by one; no atomicity is claimed.
- A PATCH performed, its reply lost, and then repeated by the client's own retry: the model performs it once, then fails or succeeds; repeating it only stamps the record once more.
- An update refused because the account is unknown: the account has just been read in the same cycle.
- Overflow of the page limit on int64 (page size 1 and a total within 8 of the maximum) and of the id counter.
- The rounding of floating-point division in the interval of the throttle, which is computed over the reals, and its overflow for rates below about 1.1e-10 per second.
- Records joining the directory while a cycle of the machine runs: the fake directory has no such operation. `Listing` covers them for the page walk.
- Cutoffs before year 0, which RFC 3339 cannot write; section 5.6 of RFC 3339 is modelled as dropping the fraction of a second.
- A record's schemas, name and photo attributes, which no decision reads.
- Waits imposed by the server, in the bound on time slept: the source puts no bound on them.
- The ids of new accounts and which record a conflict falls on, in order independence: both do depend on the order.
- The state concurrent workers leave an account in: a worker updates from the account it looked up, so the last write wins.
