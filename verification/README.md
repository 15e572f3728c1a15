# Access router: verified model of its state machines and transformations

This project models the parts of the web-ts-toolkit repository that hold real state
machines and meaning-preserving transformations, and proves what they are for. Check it
with `dafny verify dfyconfig.toml`.

| part of the system | files |
|---|---|
| Document wrapper with dirty tracking and concurrent saves | `ClientModel.dfy` (the wrapper), `ClientSync.dfy` (runs against a server) |
| Ownership protocol of the React query and mutation hooks | `QueryHook.dfy`, `MutationHook.dfy` (all runs), `QueryResults.dfy`, `MutationResults.dfy` (what is shown, by the events alone), `HookInstances.dfy` (the hooks' references and states) |
| Lifecycle of a runtime: init, shutdown, adapter starts | `Lifecycle.dfy` (all interleavings), `LifecycleOutcomes.dfy` (how calls end, by the events alone), `LifecycleRuntime.dfy` (the shared variables) |
| Canonical request keys | `RequestTree.dfy`, `RequestNormal.dfy` (the text and its decoder), `RequestGraph.dfy` (shared and cyclic values), `RequestVisits.dfy` (what counts against the node budget), `RequestKeys.dfy` (the memoized serializer) |
| Correlated filter templates | `TemplateModel.dfy`, `TemplatePaths.dfy` (reference paths), `TemplateResolve.dfy`, `TemplateScan.dfy`, `TemplateMeaning.dfy`, `TemplateWalks.dfy` |
| Conjunction of filters | `FilterKeys.dfy` (deduplication keys), `FilterConjunction.dfy` (the conjunction and its normal form), `FilterOrder.dfy` (where the order of keys matters), `FilterLoops.dfy` (the loops) |
| Bounded input traversal | `BoundedTraversal.dfy` |
| Asset catalog: queue and chunked encoding | `Catalog.dfy` |
| Reporting lines of organization members | `ReportingLines.dfy` |
| Hierarchy view of an organization | `Forests.dfy` (ways down, loops, sorting in place), `Hierarchy.dfy` (who is placed where, who becomes a root), `HierarchyLoops.dfy` (what is kept), `HierarchyNames.dfy` (under which names), `HierarchyBuild.dfy` (the builder) |
| Shared by these | `Options.dfy`, `Sequences.dfy`, `JsonText.dfy` (JSON string literals), `KeyOrder.dfy` (sorted entries) |

## How the model is built

Code that changes shared variables is a class whose methods are the stretches of code
between two awaits. Each method is proved to do what a function on the whole state says,
and the theorems are about every run of these functions, in every order. Runtimes and hook
instances log what is done to them, and the log is such a run. A request, a hook or a
transport that may succeed, fail or stay pending is an event that may come at any time; a
body that awaits several things is several events. What those functions make of the events is
proved in turn against the events and the previous state alone.

Values from outside are kept abstract. Field values, pages and errors are compared and
nothing more. Numbers and instants in request keys are non-empty texts of letters,
digits, `+`, `-` and `.`; strings are quoted as JSON does. Keys are sorted by character.
A query operator means whatever the database says: theorems about templates hold for every
meaning of the operators and of equality. Conjunctions drop and merge clauses that differ
in nothing but the order of keys; theorems about their meaning hold for every database as
long as no two conditions of the given filters differ in just that, and otherwise for every
document that does not tell such conditions apart.

## Where the code and its promises part

- **Hidden fields** (`packages/access-router-client/src/model.ts:366-422`). A field that
  reads as `undefined` is not unset on the server, yet a save may make it clean. Whatever the
  user has done since the request left, the response makes the whole baseline the server's
  document, for every server and every answer, exactly when at that moment no field is
  hidden: submitted as `undefined`, or cleared since and not submitted
  (`ResponseKeepsBaselineIffNothingHidden`, updates and creates; `RunsThatHideNothingAgree`,
  whole runs). For a save that nothing interrupts this means that no field was removed
  (`SaveKeepsBaselineIffNothingRemoved`). `ResetDuringSaveHidesField` is a run that removes
  nothing by hand and still ends with a clean, undefined field the server has: a reset during
  the save that adds the field, then another save. Clearing a field that was not loaded,
  while another one is being saved, is a second way. What always holds is stated for defined
  values.
- **Width estimate** (`packages/access-router-react/src/fetch.ts:743`). The estimate for an
  object is one character high, so a root object whose key is exactly 200,000 characters
  long can be turned away (`FullKeyIsTurnedAway`). `RequestKeyFor` states exactly which
  values get a key.
- **Room for entries** (`packages/access-router-react/src/fetch.ts:641`, `:736`). A container
  is counted once, but its entries must fit beside what is counted so far even when all of
  them are containers that were counted already: 20,000 items that are one empty array are
  turned away, though they are two distinct parts (`RepeatedItemsNeedRoom`).
- **Substituted data that changes the meaning of a filter**
  (`packages/access-router/src/correlated-includes.ts:371-421`). The resolver promises that
  substituted values are data. That fails in four ways, each with a lemma that says exactly
  for which parents some database matches a document by just one of filter and template: an
  object substituted inside a literal sub-document is wrapped in `$eq` and no longer the
  literal value (`DataIsMisreadIffWrapped`, `WrappedInsideData`); a regular expression of the
  parent's tests instead of being compared (`PatternInsteadOfEquality`); under `$not` an
  object of operators is read as operators (`NegatedOperators`); and under `$and`, `$or` or
  `$nor` an array is read as clauses (`ClausesFromTheParent`).
  `ResolvedFilterMeansTheTemplate` proves that a resolved filter reads as its template is
  meant exactly when none of these occurs. A filter that reads otherwise may still match
  alike, for example beside a clause that nothing meets (`MisreadingMayNotCount`).
- **Order of keys in conjunctions** (`packages/access-router/src/core-shared.ts:64-68`,
  `:102`). Two clauses are one for the deduplication and the merge when they differ in the
  order of keys inside a value. A database that compares sub-documents in order tells them
  apart: of `{ a: { x: 1, y: 2 } }` and `{ a: { y: 2, x: 1 } }` only the first is left, and
  the intersection matches a document that fails the second (`SubDocumentsInTwoOrders`).
  Filters whose conditions have one order are intersected rightly for every database
  (`OneOrderIsIgnored`); in general the intersection is right for every document exactly when
  it matches nothing or still has every condition of the filters
  (`IntersectionIsExactIffNothingIsLost`). The documents for which intersections of all
  filters are right are exactly those for which the order of keys does not matter where the
  code ignores it (`IntersectionIsExactIffOrderIsIgnored`).
- **Members who report to themselves** (`apps/react-vite/src/hierarchy.ts:65-91`). Whoever no
  root reaches is made a root, and then loses its reports in the sort, which finds it on its
  own path. All reports are kept exactly when nobody reports to themselves. With unique ids
  exactly the first member of every loop loses its reports (`LosesIffFirstOfLoop`), and
  everybody is shown exactly when whoever reports to themselves comes behind all their other
  reports (`AllAreShownIff`), which no loop of two or more fulfils: of two members who manage
  each other, the second is not shown (`SecondOfTwoIsLost`).
- **Needless references** (`packages/access-router/src/correlated-includes.ts:235-262`). The
  collector also takes references inside an array that stands for a logical clause, which
  are never resolved (`NeedlessReference`); `CollectsExactlyWhatIsResolved` gives the
  condition.
- **Configured shutdown hook** (`packages/access-router-runtime/src/index.ts:586-589`,
  `:631-634`). It may run both in the rollback of a failed `init` and in a later `shutdown`,
  so nothing is claimed about how often it runs.

## Model

| member | source | states |
|---|---|---|
| ClientModel.DocModel.constructor | packages/access-router-client/src/model.ts:202-222 | A wrapper starts with its data as baseline, and dirty exactly in the fields of an unsaved draft. |
| ClientModel.DocModel.Set | packages/access-router-client/src/model.ts:470-483 | A new value is stored and no other field changes; the field is then dirty exactly if it differs from its baseline or belongs to an unsaved draft (`_id` always). Writing the stored object itself changes nothing. |
| ClientModel.DocModel.Assign | packages/access-router-client/src/model.ts:493-518 | Every key reads as given and no other field changes; a written field that differs from its baseline is dirty, and once the document exists no given field that is back at its baseline is, the unwritten ones included. |
| ClientModel.DocModel.Reset | packages/access-router-client/src/model.ts:526-537 | Local data becomes the baseline; nothing is dirty then, but every field of an unsaved draft. |
| ClientModel.DocModel.ReplaceData | packages/access-router-client/src/model.ts:547-560 | The data becomes the new data and the baseline stays; a written field is dirty if it differs from the baseline, no other written field of a saved document is (`_id` apart), and nothing else changes its dirtiness. |
| ClientModel.DocModel.StartSave | packages/access-router-client/src/model.ts:293-317 | A save aims at the `_id` or the known identity and creates without one, or refuses for an existing document; it captures the dirty paths with their values, and sends all fields of a new document, and otherwise the dirty fields that are there. |
| ClientModel.DocModel.Succeed | packages/access-router-client/src/model.ts:333-432 | A created document gets its `_id`, in the data and as identity; every other key of the response that was not edited meanwhile reads as the response says, and no other key changes. A path is dirty exactly when it was submitted and its value differed from the submitted one by then, or was not submitted and dirty by then. The baseline is what is clean, what the server has of the dirty keys submitted, and the old baseline of the others. A copy with the same data and identity is returned. |
| ClientModel.DocModel.Fail | packages/access-router-client/src/model.ts:322-325 | A failed save leaves data, baseline and dirty set as they are. |
| ClientModel.DocModel.Save | packages/access-router-client/src/model.ts:273-291 | A save starts at once with what is dirty now, or joins the queue behind the running one. |
| ClientModel.DocModel.Drain | packages/access-router-client/src/model.ts:273-291 | The next queued save starts once the previous one has settled, with what is dirty by then; an empty queue is released. |
| ClientSync.SettledWrapperAgreesWithServer | packages/access-router-client/src/model.ts:293-437 | In every run of edits, resets and queued, failing saves: a clean path reads as its baseline, and with no save in flight every defined baseline value and every defined clean value is the server's. |
| ClientSync.UnsavedValueIsDirty | packages/access-router-client/src/model.ts:308-422 | With no save in flight, a local value that the server does not have is always still marked dirty. |
| ClientSync.UninterruptedSaveConverges | packages/access-router-client/src/model.ts:293-437 | A save that nothing interrupts leaves nothing dirty and every local value stored. |
| ClientSync.ResponseKeepsBaselineIffNothingHidden | packages/access-router-client/src/model.ts:319-432 | For any save in flight, a create included, and whatever was edited or reset since: the response makes the whole baseline the document, for every server and answer, exactly when no field is hidden at that moment. |
| ClientSync.RunsThatHideNothingAgree | packages/access-router-client/src/model.ts:293-437 | In every run in which nothing is hidden when a response arrives, the whole baseline of a settled document is the server's, and so is every clean value it covers. |
| ClientSync.SaveKeepsBaselineIffNothingRemoved | packages/access-router-client/src/model.ts:400-422 | A save that nothing interrupts keeps the whole baseline equal to the document, for every server, exactly when no field was removed. |
| ClientSync.ResetDuringSaveHidesField | packages/access-router-client/src/model.ts:520-537 | A run in which a reset during a save leaves a clean, undefined field that the server has. |
| QueryHook.FlagsFollowTheOwner | packages/access-router-react/src/create-model-hook.ts:381-587 | In every run while mounted: fetching exactly when an unsettled invocation owns the current id, loading exactly when no data has settled either, a previous page only while fetching, and the error of the owner unless it was aborted. |
| QueryHook.ResultsAreAppliedInOrder | packages/access-router-react/src/create-model-hook.ts:386-420 | Applied results come from invocations that started in that order, were never aborted, and are applied once; the newest since the last reset is what is shown. |
| QueryHook.NothingOlderIsApplied | packages/access-router-react/src/create-model-hook.ts:464-503 | Nothing that started before a disable or a reset is ever applied after it. |
| QueryHook.StepKeepsInv | packages/access-router-react/src/create-model-hook.ts:1277-1288 | Every start, abort, settlement, disable, reset and unmount keeps flags, ids, history and shown data consistent. |
| QueryResults.ShownWasAnswered | packages/access-router-react/src/create-model-hook.ts:405-420 | In every run each applied result was answered for that very invocation, and the data shown while mounted is such a page or the initial one. |
| QueryResults.AnswerIsShown | packages/access-router-react/src/create-model-hook.ts:405-420 | The page answered to the owner of a mounted hook that was not aborted is shown at once, with the flags down. |
| QueryResults.OtherAnswersAreDropped | packages/access-router-react/src/create-model-hook.ts:405-420 | Any other answer changes neither data nor error nor what was applied. |
| QueryResults.FailureIsShown | packages/access-router-react/src/create-model-hook.ts:421-447 | The failure of such an owner is shown beside the data; any other failure leaves the error as it is. |
| QueryResults.SettlementsWereEvents | packages/access-router-react/src/create-model-hook.ts:381-447 | An invocation settles only by its own answer or failure, and keeps that outcome. |
| QueryResults.StartTakesOver | packages/access-router-react/src/create-model-hook.ts:330-404 | An invocation that starts is new and owns the hook; every other one under way is aborted, and settled ones keep their outcome. |
| QueryResults.OnlyOneIsNotAborted | packages/access-router-react/src/create-model-hook.ts:330-345 | In every run at most one invocation under way is not aborted: the one the abort manager holds. |
| QueryResults.NothingRunsOn | packages/access-router-react/src/create-model-hook.ts:464-498 | Whatever is under way when the hook is disabled or unmounted is aborted. |
| QueryResults.EndingsShow | packages/access-router-react/src/create-model-hook.ts:464-587 | A reset shows what a new hook shows; a disabled hook goes on showing its data and its error, with the flags down. |
| QueryResults.UnmountedShowsNothingNew | packages/access-router-react/src/create-model-hook.ts:402-447 | From the unmount on nothing is shown or applied any more, whatever settles. |
| QueryResults.PreviousPageWhileFetching | packages/access-router-react/src/create-model-hook.ts:386-404 | The newest page since the last reset is kept as the previous one exactly while it is refetched, if the hook is to keep it. |
| MutationHook.PendingWhileUnsettled | packages/access-router-react/src/create-model-hook.ts:727-780 | In every run while mounted the hook is pending exactly when some invocation has not settled. |
| MutationHook.ShownFollowsTheNewest | packages/access-router-react/src/create-model-hook.ts:747-766 | The newest invocation since a reset shows no error until it settles, then its data or its error; data is that of the last successful write. |
| MutationHook.WritersComeInOrder | packages/access-router-react/src/create-model-hook.ts:753-766 | Invocations write in the order in which they started, each at most once. |
| MutationHook.NothingOlderWrites | packages/access-router-react/src/create-model-hook.ts:805-809 | After a reset nothing that started before it writes data or error, and the hook stays pending for it. |
| MutationResults.OutcomesAreThoseAnswered | packages/access-router-react/src/create-model-hook.ts:747-780 | In every run an invocation has an outcome exactly when it was answered with that. |
| MutationResults.WritersWereAnswered | packages/access-router-react/src/create-model-hook.ts:753-766 | Whatever was written was answered to the invocation that wrote it. |
| MutationResults.ShownWasAnswered | packages/access-router-react/src/create-model-hook.ts:753-766 | The data shown was answered to some invocation, and the newest one's error to that one. |
| MutationResults.ConcludedIsShown | packages/access-router-react/src/create-model-hook.ts:747-780 | Once its observers are done, the newest invocation of a mounted hook shows its outcome, and no other shows any. |
| MutationResults.StartIsNewest | packages/access-router-react/src/create-model-hook.ts:727-746 | An invocation that starts is new and the newest, clears the error of a mounted hook and makes it pending; the data stays and the other invocations go on. |
| MutationResults.ResetClears | packages/access-router-react/src/create-model-hook.ts:790-809 | A reset clears data and error; what is under way goes on and the hook stays pending for it. |
| MutationResults.UnmountedShowsNothingNew | packages/access-router-react/src/create-model-hook.ts:747-780 | From the unmount on nothing is written any more, whatever is answered. |
| HookInstances.RunObserverSequence | packages/access-router-react/src/create-model-hook.ts:186-195 | Observers run up to the first that unmounts the hook; one that throws is reported and does not stop the next. |
| HookInstances.QueryInstance.Perform | packages/access-router-react/src/create-model-hook.ts:332-503 | Starts, answers, failures, disabling, resets and unmounts of one instance, in any sequence, are a run of the protocol. |
| HookInstances.QueryInstance.ShowsItsOwner | packages/access-router-react/src/create-model-hook.ts:381-587 | Whatever sequence of calls came before, a mounted instance is fetching exactly while its owner is unsettled and shows the newest page applied since its last reset. |
| HookInstances.MutationInstance.Perform | packages/access-router-react/src/create-model-hook.ts:727-809 | Starts, answers, conclusions, resets and unmounts of one instance, in any sequence, are a run of the protocol. |
| HookInstances.MutationInstance.ShowsItsNewest | packages/access-router-react/src/create-model-hook.ts:727-780 | Whatever sequence of calls came before, a mounted instance is pending exactly while an invocation is unsettled, and shows the last successful write since its last reset. |
| Lifecycle.TeardownIsAlone | packages/access-router-runtime/src/index.ts:603-659 | In every interleaving: from the moment the pending starts are drained until the teardown is over, and in a stopped runtime, no configured or caller init hook runs or is about to. |
| Lifecycle.InterruptedInitIsNeverReady | packages/access-router-runtime/src/index.ts:553-601 | An init under way when a shutdown begins never makes the runtime ready; only a later init can. |
| Lifecycle.StoppedIsAbsorbing | packages/access-router-runtime/src/index.ts:560-565 | A stopped runtime stays stopped and begins no init, whatever is called. |
| Lifecycle.ConnectionFollowsLife | packages/access-router-runtime/src/database.ts:255-329 | In every run a ready runtime holds its owned connection open, and a stopped one does not, unless it was told not to disconnect. |
| Lifecycle.SuccessfulStartIsReady | packages/access-router-runtime/src/index.ts:712-725 | An adapter start that succeeds ends in a ready runtime that nobody shuts down. |
| Lifecycle.NoDeadlock | packages/access-router-runtime/src/index.ts:543-551 | In every reachable state in which a call is unsettled, some step other than a new call is enabled. |
| Lifecycle.EveryCallSettles | packages/access-router-runtime/src/index.ts:533-737 | Without new calls every run ends within a computed number of steps, and only when everything has settled. |
| Lifecycle.StepKeepsInv | packages/access-router-runtime/src/index.ts:533-737 | Every step of init, shutdown, adapter starts and composed shutdowns keeps states, entries, history and connection consistent. |
| LifecycleOutcomes.InitSucceedsIffAllWent | packages/access-router-runtime/src/index.ts:570-601 | In every run a finished init has made the runtime ready exactly when its connection and then its hook did well and no shutdown began meanwhile; a ready runtime is one it made ready. |
| LifecycleOutcomes.InitGoesOn | packages/access-router-runtime/src/index.ts:570-601 | An uninterrupted init connects, then runs its hook, then is ready; a failure of either rolls back, the hook first if it was begun, and ends failed. |
| LifecycleOutcomes.InitEndsFor | packages/access-router-runtime/src/index.ts:570-601 | When an init ends, everybody who awaits it is told whether it made the runtime ready, and nobody else is told anything. |
| LifecycleOutcomes.InitIsAnswered | packages/access-router-runtime/src/index.ts:553-568 | A call to init succeeds at once exactly in a ready runtime, is refused exactly during and after a shutdown, and otherwise awaits the one init there is, begun now if none was. |
| LifecycleOutcomes.ShutdownStopsIffAllWent | packages/access-router-runtime/src/index.ts:632-655 | In every run a teardown runs the hook once and then the database once, and ends stopped exactly when both did well, and failed otherwise. |
| LifecycleOutcomes.StartEndsWellByItsHook | packages/access-router-runtime/src/index.ts:690-737 | In every run an adapter start that ended well was let on by its own hook. |
| LifecycleOutcomes.StartGoesOn | packages/access-router-runtime/src/index.ts:690-737 | An adapter start whose init succeeded runs its hook with its entry still pending; without either it fails and its entry is gone, and after the hook it succeeds exactly when the runtime is ready and nobody shuts it down. |
| LifecycleOutcomes.ShutdownIsAnswered | packages/access-router-runtime/src/index.ts:603-612 | A call to shutdown has nothing to wait for exactly in a stopped runtime, and otherwise awaits the one shutdown there is, begun now if none was; that one first waits for an init exactly if one is under way. |
| LifecycleOutcomes.CleanupShutsDown | packages/access-router-runtime/src/index.ts:661-682 | Whoever has run the caller's cleanup then shuts the runtime down, or joins the shutdown there is. |
| LifecycleOutcomes.ComposedShutdownWaits | packages/access-router-runtime/src/index.ts:673-682 | In every run: once a composed shutdown goes on to the caller's cleanup, no adapter start that was pending when it was called is pending any more. |
| LifecycleRuntime.Runtime.Perform | packages/access-router-runtime/src/index.ts:533-737 | Calls to init and shutdown, adapter starts, composed shutdowns and everything they await, in any sequence on one object, are a run of the protocol. |
| LifecycleRuntime.Runtime.IsSafe | packages/access-router-runtime/src/index.ts:533-737 | Whatever sequence of calls came before: no init hook during a teardown or in a stopped runtime, the connection follows the state, and something can go on while anything is unsettled. |
| RequestKeys.RequestKeyFor | packages/access-router-react/src/fetch.ts:436-469 | A key is returned exactly for the values that unfold within 64 levels, whose key has at most 200,000 characters, that are not estimated too wide, and whose first visits, with room for all entries of a container on entry, number at most 20,000; it is then the key of the fully unshared value. When no container occurs twice the budget is 20,000 nodes exactly; in any case the distinct parts cost no more. Only keys of full length are estimated too wide. |
| RequestVisits.FewNodesKeepWithinBudget | packages/access-router-react/src/fetch.ts:800-805 | A value of at most 20,000 unshared nodes keeps within the node budget, however its parts are shared. |
| RequestVisits.UnsharedIsCountedInFull | packages/access-router-react/src/fetch.ts:516-535 | A value in which no container occurs twice keeps within the budget exactly if it has at most 20,000 nodes, leaves included. |
| RequestVisits.SharedPartsCountOnce | packages/access-router-react/src/fetch.ts:506-557 | However parts are shared, a value within the budget has been counted as its distinct containers with their leaf entries, and these are at most 20,000. |
| RequestVisits.SharedPartsKeepWithinBudget | packages/access-router-react/src/fetch.ts:800-805 | Parts that are met again cost nothing: the budget is kept when the distinct parts fit and leave room for the containers that any one of them refers to. |
| RequestVisits.RepeatedItemsNeedRoom | packages/access-router-react/src/fetch.ts:641 | 20,000 items that are one empty array are turned away though they are two distinct parts. |
| RequestKeys.Serializer.SerializeNode | packages/access-router-react/src/fetch.ts:506-557 | At any depth, from any cache: the text and height are those of the unshared value, the output counter grows by the text, the node counter and the cache are those of the first visits, and every failure is justified by depth, cycle, kind or a budget. |
| RequestKeys.Serializer.SerializeArray | packages/access-router-react/src/fetch.ts:623-697 | Serializes an array, rejecting cycles and too many elements up front, and remembers its text. |
| RequestKeys.Serializer.SerializeObject | packages/access-router-react/src/fetch.ts:707-794 | Serializes an object in key order or, for sorts, in its own, with the width estimates, and remembers its text. |
| RequestKeys.CyclesHaveNoKey | packages/access-router-react/src/fetch.ts:624-626 | A container that lies below itself unfolds to nothing at any depth, so it never has a key. |
| RequestKeys.EqualKeysMeanEqualStructures | packages/access-router-react/src/fetch.ts:506-798 | Two values, however shared, have one request key exactly when they unfold to one structure. |
| RequestKeys.FullKeyIsTurnedAway | packages/access-router-react/src/fetch.ts:739-745 | An object of two nodes whose key has exactly 200,000 characters, and which the width estimate rejects. |
| RequestNormal.KeysRoundTrip | packages/access-router-react/src/fetch.ts:506-798 | A decoder recovers every plain value from its key up to the order of entries, and from a sort key with that order. |
| RequestNormal.RequestKeysIdentifyStructures | packages/access-router-react/src/fetch.ts:736-794 | Two plain values have one request key exactly when they have one structure. |
| RequestNormal.SortKeysIdentifyValues | packages/access-router-react/src/fetch.ts:462-469 | Two sort specifications have one key exactly when they are equal, order of fields included. |
| RequestTree.TextDecodes | packages/access-router-react/src/fetch.ts:539-557 | The text of a value, with its tags, quotes and brackets, is read back exactly. |
| TemplatePaths.PathLeads | packages/access-router/src/correlated-includes.ts:294-306 | A dotted path of valid names and positions leads to the value at that place, whatever it is and whatever stands beside it on the way. |
| TemplatePaths.MissingSegmentHasNoValue | packages/access-router/src/correlated-includes.ts:302-303 | A path with a name or position that is not there, or below what is no container, has no value, however it goes on. |
| TemplatePaths.LengthIsOwn | packages/access-router/src/correlated-includes.ts:303-304 | The length of an array is found as its own property. |
| TemplatePaths.SplitUndoesDotted | packages/access-router/src/correlated-includes.ts:295 | Splitting a dotted path gives its segments back. |
| TemplatePaths.ValidPathIsDotted | packages/access-router/src/correlated-includes.ts:40-50 | The valid paths are exactly the dotted lists of valid segments. |
| TemplatePaths.DangerousPathIsInvalid | packages/access-router/src/correlated-includes.ts:40-50 | No path with a segment that names a prototype is valid, wherever that segment stands. |
| TemplateScan.ValidatorAndResolverAgree | packages/access-router/src/correlated-includes.ts:84-204 | A template without issues never makes the resolver fail, for any parent; one with an issue never resolves. |
| TemplateScan.UnresolvableIffAReferenceIsMissing | packages/access-router/src/correlated-includes.ts:468-481 | A valid template is unresolvable exactly when some reference it resolves is null or absent in the parent. |
| TemplateScan.CollectedPathsSuffice | packages/access-router/src/correlated-includes.ts:235-262 | Two parents that agree on every collected path resolve any template to the same result. |
| TemplateScan.CollectsExactlyWhatIsResolved | packages/access-router/src/correlated-includes.ts:235-262 | From a valid template the collector takes exactly the references that are resolved, if and only if no clause that is not an object holds references. |
| TemplateScan.NeedlessReference | packages/access-router/src/correlated-includes.ts:246-261 | A valid template with a collected reference that is never resolved. |
| TemplateMeaning.ResolvedFilterMeansTheTemplate | packages/access-router/src/correlated-includes.ts:324-421 | The resolved filter reads as its template is meant, references being data and bare ones literal equality, exactly when the template is clean for this parent. |
| TemplateMeaning.ResolvedFilterMatchesAlike | packages/access-router/src/correlated-includes.ts:324-421 | Whatever the operators mean, a clean template's resolved filter matches exactly the documents the template does. |
| TemplateMeaning.ReferenceMeansEquality | packages/access-router/src/correlated-includes.ts:396-405 | A reference for a field means literal equality with the parent's value, whatever that value is. |
| TemplateMeaning.EscapeMeansTheObject | packages/access-router/src/correlated-includes.ts:383-391 | An escaped reference for a field means literal equality with the object inside, whatever the parent is. |
| TemplateMeaning.MisreadingMayNotCount | packages/access-router/src/correlated-includes.ts:324-421 | Any unclean part, beside a clause that no document meets, leaves a template that is not clean and matches alike: cleanness is exact for how a filter reads, and sufficient for what it matches. |
| TemplateMeaning.ResolvedData | packages/access-router/src/correlated-includes.ts:382-421 | Literal data resolves to the same data with references replaced, exactly when nothing in it is wrapped. |
| TemplateMeaning.DataIsMisreadIffWrapped | packages/access-router/src/correlated-includes.ts:382-421 | Literal data for a field is matched otherwise than meant, by some document in some database, exactly when something in it is wrapped. |
| TemplateMeaning.WrappedInsideData | packages/access-router/src/correlated-includes.ts:403 | An object substituted inside a literal sub-document is wrapped: in some database some document is matched by just one of filter and template. |
| TemplateMeaning.PatternInsteadOfEquality | packages/access-router/src/correlated-includes.ts:396-405 | A reference for a field is matched otherwise than meant, by some document in some database, exactly when the parent's value is a regular expression. |
| TemplateMeaning.NegatedOperators | packages/access-router/src/correlated-includes.ts:365-368 | A negated reference is matched otherwise than meant exactly when the parent's value is a regular expression or an object of operators. |
| TemplateMeaning.ClausesFromTheParent | packages/access-router/src/correlated-includes.ts:351-356 | A reference under a logical operator is matched otherwise than meant exactly when the parent's value is an array, which is read as clauses. |
| TemplateWalks.ValidateCorrelatedFilterTemplate | packages/access-router/src/correlated-includes.ts:192-204 | The validator, pushing issues as it walks, reports exactly the specified issues with their paths. |
| TemplateWalks.ResolveCorrelatedFilterTemplate | packages/access-router/src/correlated-includes.ts:468-481 | The resolver, filling its output entry by entry and stopping at the first failure, returns the specified resolution. |
| TemplateWalks.ResolveValueNode | packages/access-router/src/correlated-includes.ts:382-421 | One value resolves as specified, bare or not. |
| TemplateWalks.ReferenceCollector.VisitValue | packages/access-router/src/correlated-includes.ts:235-262 | The collector appends exactly the specified paths. |
| FilterLoops.IntersectFilters | packages/access-router/src/core-shared.ts:153-155 | The intersection of filters, through flattening, deduplication and merging, matches every document exactly when every filter does, if no two conditions of the filters differ in nothing but the order of keys; otherwise every document that tells no two such conditions apart. |
| FilterOrder.OneOrderIsIgnored | packages/access-router/src/core-shared.ts:38-122 | If no two conditions of the filters, at any depth of their conjunctions, differ in nothing but the order of keys, the intersection matches every document exactly when every filter does. |
| FilterOrder.IntersectionMatchesAll | packages/access-router/src/core-shared.ts:38-122 | For any filters, the intersection matches every document that tells no two such conditions of them apart exactly when every filter does. |
| FilterOrder.IntersectHasNothingNew | packages/access-router/src/core-shared.ts:38-122 | Every condition of an intersection is one of its filters', order of keys included. |
| FilterOrder.IntersectionIsExactIffNothingIsLost | packages/access-router/src/core-shared.ts:64-121 | An intersection is right for every document exactly when it matches nothing or keeps every condition of the filters. |
| FilterOrder.SubDocumentsInTwoOrders | packages/access-router/src/core-shared.ts:64-113 | Two filters for one sub-document in two orders, and a document that meets their intersection and fails the second. |
| FilterOrder.IntersectionIsExactIffOrderIsIgnored | packages/access-router/src/core-shared.ts:64-113 | Intersections of all filters match a document as they should exactly when the order of keys does not matter for it where the code ignores it; filters and values list each key once. |
| FilterOrder.OrderMatters | packages/access-router/src/core-shared.ts:64-113 | For any other document, two filters that list each key once, whose intersection it meets while it fails one of them. |
| FilterConjunction.FalseIffContained | packages/access-router/src/core-shared.ts:38-44 | The result is false exactly when false occurs among the conjuncts at any depth. |
| FilterOrder.NormalizeKeepsMeaning | packages/access-router/src/core-shared.ts:124-133 | Normalizing a filter keeps the documents it matches, if no two of its conditions differ in nothing but the order of keys, and otherwise those that tell no two such conditions apart. |
| FilterConjunction.NormalizeGivesNormalForm | packages/access-router/src/core-shared.ts:116-133 | A normalized filter is false, null, one clause, or two or more clauses under one conjunction, none of them empty, false or a conjunction. |
| FilterConjunction.NormalizeIsIdempotent | packages/access-router/src/core-shared.ts:124-133 | Normalizing again changes nothing, not even the order of keys. |
| FilterConjunction.IntersectionIsCompact | packages/access-router/src/core-shared.ts:78-121 | What stays under one conjunction has no repeated clause, and every clause beside the first has operators or gives a field another value than the first: nothing is left that could be merged. |
| FilterLoops.OptimizeAndFilter | packages/access-router/src/core-shared.ts:38-122 | The three loops compute the specified conjunction and return false at once where they must. |
| FilterLoops.NormalizeFilter | packages/access-router/src/core-shared.ts:124-133 | Normalization and conjunction, calling each other, compute the specified filter. |
| FilterKeys.DedupeKeyIsInjective | packages/access-router/src/core-shared.ts:56-75 | Values with one deduplication key differ in nothing but the order of keys. |
| FilterKeys.OneKeyIffSame | packages/access-router/src/core-shared.ts:56-75 | A value with a deduplication key shares it with exactly the values that differ in nothing but the order of keys. |
| BoundedTraversal.ValidateBoundedInputs | packages/access-router-client/src/bounded-traversal.ts:23-55 | The walk over a stack accepts exactly the inputs whose unfolded forest nests no visit deeper than 64, takes at most 10,000 visits and has no container below itself; it ends as the recursive walk does, failure and path included. |
| BoundedTraversal.VisitAllMeans | packages/access-router-client/src/bounded-traversal.ts:23-55 | From any level, ancestors and count, the walk accepts exactly what still fits, and counts every occurrence once. |
| BoundedTraversal.UnfoldFollowsMembers | packages/access-router-client/src/bounded-traversal.ts:10-21 | The unfolded container holds the unfolded members, each in its place and in the context its container passes on. |
| BoundedTraversal.RejectionIsReal | packages/access-router-client/src/bounded-traversal.ts:40-46 | The path of a rejection leads to a value; that value lies at level 65 if it is rejected for its depth, and is a container passed on the way there if for a cycle. |
| Catalog.BuildOrderedQueue | packages/asset-inliner/src/catalog.ts:173-204 | The queue built with a cache of roots and a set of identities is the specified one, or the specified excess. |
| Catalog.QueueHoldsFirstOccurrences | packages/asset-inliner/src/catalog.ts:206-234 | A queue is built exactly when the distinct files are no more than the limit, and holds bytes and first occurrences in order. |
| Catalog.FirstOccurrencesAreDistinct | packages/asset-inliner/src/catalog.ts:190-201 | Queued files are pairwise distinct, and no file is lost. |
| Catalog.FirstOccurrencesKeepOrder | packages/asset-inliner/src/catalog.ts:173-204 | The queue is the listed items in their order: all byte inputs, and of the files with one identity the first. |
| Catalog.InputsAreListedInPlace | packages/asset-inliner/src/catalog.ts:181-203 | Every input is listed in its place: bytes as they are, a root as the files it leads to. |
| Catalog.ExcessIsTheNextFile | packages/asset-inliner/src/catalog.ts:196-198 | The file reported as one too many is the first new one after as many as are allowed. |
| Catalog.PlanChunk | packages/asset-inliner/src/catalog.ts:282-300 | The planned items are known to fit what remains; a plan that is cut short is followed by an item that does not. |
| Catalog.CreateAssetCatalog | packages/asset-inliner/src/catalog.ts:431-475 | Encoding in chunks or one by one gives the same assets in order, exactly when all fit, or the same total and item of the first excess. |
| Catalog.BuiltIffAllFit | packages/asset-inliner/src/catalog.ts:520-527 | A catalog is built exactly when all items fit together, and holds every one of them in order with its own size. |
| Catalog.ExcessIsTheNextItem | packages/asset-inliner/src/catalog.ts:264-268 | The excess reported is the total up to and including the first item that no longer fits, and that item. |
| Catalog.BuildInChunks | packages/asset-inliner/src/catalog.ts:440-462 | Concurrent chunks refine the sequential build. |
| Catalog.BuildSequentially | packages/asset-inliner/src/catalog.ts:520-527 | The sequential build is the specified one. |
| ReportingLines.UpdateIsAcceptedIffItFits | apps/nodejs/src/routers.ts:48-86 | For members whose lines end inside their organization, a new manager is accepted exactly when that still holds afterwards. |
| ReportingLines.CreateIsAcceptedIffItFits | apps/nodejs/src/routers.ts:238 | A new member is accepted exactly when managers stay inside the organization and lines end. |
| ReportingLines.OperationsKeepInv | apps/nodejs/src/routers.ts:48-295 | Every sequence of creates, updates and deletes, rejected ones included, keeps managers inside the organization and reporting lines finite. |
| ReportingLines.NobodyReportsToThemselves | apps/nodejs/src/routers.ts:54-56 | Where lines end, nobody reports to themselves, directly or through others. |
| ReportingLines.DeleteKeepsInv | apps/nodejs/src/routers.ts:88-100 | Passing a deleted member's reports to that member's manager keeps lines finite. |
| ReportingLines.MembershipStore.ValidateManager | apps/nodejs/src/routers.ts:48-86 | The walk up the managers ends for every stored graph and gives the specified verdict. |
| ReportingLines.MembershipStore.CreateMembership | apps/nodejs/src/routers.ts:238-256 | A new member is stored as given exactly if lines still end inside organizations; otherwise nothing changes. |
| ReportingLines.MembershipStore.UpdateMembership | apps/nodejs/src/routers.ts:239-281 | The new manager is stored exactly if lines still end inside the organization; otherwise nothing changes, and the verdict tells oneself and strangers apart. |
| ReportingLines.MembershipStore.DeleteMembership | apps/nodejs/src/routers.ts:283-295 | A member is deleted exactly if its organization has another one; whoever reported to it then reports to its manager, and nothing else changes. |
| HierarchyBuild.HierarchyBuilder.BuildTree | apps/react-vite/src/hierarchy.ts:17-95 | For every member list, cycles and repeated ids included: the build ends, nobody is below themselves, every list a root reaches is sorted by the members' full names, members without an id are roots, the other roots are the unmanaged and whom neither these nor earlier members reach, and all reports are kept exactly when nobody reports to themselves. With unique ids everybody is then placed once; otherwise exactly the first members of loops lose their reports, and exactly those are shown to whom a root leads. |
| HierarchyNames.BuiltIsNamed | apps/react-vite/src/hierarchy.ts:75 | Everybody in a built hierarchy stands under their own full name, by which the lists are sorted. |
| HierarchyNames.UnidentifiedAreRoots | apps/react-vite/src/hierarchy.ts:30-33 | Each member without an id is a root, once. |
| Hierarchy.LastRecordIsKept | apps/react-vite/src/hierarchy.ts:20-24 | Of several members with one id the last is the one that is shown. |
| Hierarchy.PlacedExactlyOnce | apps/react-vite/src/hierarchy.ts:28-47 | With unique ids every member is placed exactly once: under the manager it names and nowhere among the roots, or, if that is no member, once among the roots and under nobody. |
| Forests.NobodyBelowThemselves | apps/react-vite/src/hierarchy.ts:74-91 | Down from a settled root no way ever comes back to anybody on it. |
| Hierarchy.NobodyIsRescued | apps/react-vite/src/hierarchy.ts:49-72 | Where nobody reports to themselves, the members without a manager reach everybody, so no further roots are added. |
| Hierarchy.RootIffNobodyBefore | apps/react-vite/src/hierarchy.ts:28-72 | For every member list: a member is a root exactly when its manager is absent, or neither such a member nor any earlier one reaches it. |
| HierarchyBuild.HierarchyBuilder.SortChildren | apps/react-vite/src/hierarchy.ts:74-91 | Sorting in place settles everything below, and empties only lists of members who report to themselves; with one manager each, only those of roots. |
| HierarchyLoops.AllAreKeptIffNoLoop | apps/react-vite/src/hierarchy.ts:74-91 | In what is built, all reports are kept exactly when nobody reports to themselves. |
| HierarchyLoops.LosesIffFirstOfLoop | apps/react-vite/src/hierarchy.ts:65-91 | With unique ids, a member loses its reports exactly when it reports to itself and no earlier member reaches it: it is the first of its loop. |
| HierarchyLoops.ShownIffLedTo | apps/react-vite/src/hierarchy.ts:65-94 | With unique ids, a member is shown exactly when some member that becomes a root is that member, or reaches it and does not report to itself. |
| HierarchyLoops.AllAreShownIff | apps/react-vite/src/hierarchy.ts:17-95 | With unique ids, everybody is shown exactly when every other report of a member that reports to itself comes before that member. |
| HierarchyLoops.SecondOfTwoIsLost | apps/react-vite/src/hierarchy.ts:65-91 | Of two members who manage each other, the first is shown and the second is not. |

## Left out

- Document wrapper: proxies, reserved names, accessor checks, cloning and freezing are not modelled; values are immutable and compared by structure.
- Document wrapper: what a server may do is one writer's part: it changes only submitted fields of an existing document and echoes what it stored differently. In runs against a server the user never writes `_id`.
- Query and mutation hooks: rendering, memo identities, `totalCount` and the other hooks' data shapes; writes after unmount are dropped as React drops them, and a remount is not modelled.
- Request signals: `composeAbortSignals` appears as the single fact that an invocation may be aborted by any of its signals.
- Lifecycle: error objects and their aggregation, the local server's own promise, `callerShutdownOnce` and the handler's `reset` are not modelled; hooks end and do not call back into the runtime.
- Lifecycle: with which error a promise is rejected is not modelled; a shutdown that failed shows in the state it leaves.
- Lifecycle: the database is one owned connection, disconnected on shutdown or not; generated models and construction rollback are not modelled.
- Lifecycle.ConnectionFollowsLife: nothing is said about a connection that a stopped runtime was told to keep, since an earlier rollback may have closed it.
- Request keys: accessors, symbols, prototypes and built-in instances are one kind of unsupported value; a hole in an array is the value `undefined`; characters are ordered by code point.
- Correlated templates: templates are trees, so shared and cyclic templates are not modelled; regular expressions and other instances have no own properties to follow; the operands of operators are opaque, so that a regular expression substituted inside `$in` or `$all`, where a database applies it as a pattern too, is not told from any other value; identifier templates, argument checks and complexity limits are left out as easier.
- Filters: the order of keys is that of insertion, where JavaScript puts keys that are array indexes first; anything but `false` and objects states no condition, as the code drops it; zero is one number; the mode in which the database rejects malformed filters is not modelled.
- Bounded traversal: paths are positions instead of rendered text; inherited properties are not modelled.
- BoundedTraversal.RejectionIsReal: where a rejection for the number of visits lies is that of the recursive walk, and not told otherwise.
- Catalog: abort signals, detection, the indexes of the finished catalog and files that change between two looks are left out; discovering a root gives the same files every time.
- Reporting lines: identifiers are valid, validation and write are one step, and users, invitations and the other routers are left out.
- Hierarchy view: the search and its filtered tree are left out as easier; names are ordered by character instead of by locale.
