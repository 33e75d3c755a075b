# Litmus portal: a verified model of its core logic

The Litmus portal is the control plane of a chaos engineering platform: agents in target clusters stream
workflow runs to a GraphQL server, an authentication server keeps projects and their members, a frontend shows
dashboards. This project models the parts of it whose correctness spans several operations or whole runs, and
proves what they promise. `dafny verify dfyconfig.toml` checks everything.

The model follows the form of the source. Code that changes things in place is a class or a loop with
invariants, proved against a specification function; what the source promises is then proved of that function.
Concurrent code is a state machine whose steps are the atomic operations of the original.

| modules | what they model |
|---|---|
| `RunEvents`, `EventCache`, `EventHistory` | The subscriber's handlers that turn workflows and chaos engines into run events, its cache that fills chaos data of earlier events into later ones over shared node maps, and what the cache amounts to over any history of deliveries |
| `GitKeys`, `GitLock` | Lock keys of repositories and projects, and the two-level lock as interleaved thread steps |
| `Conditions`, `PolicyStore` | The event tracker's condition evaluator, and auditors and reconcilers working on one stored policy, where a write is taken only if it is based on the current version |
| `Projects`, `Membership` | Project creation, invitations, membership and account activation as handlers over stored records, and what holds over whole runs |
| `GqlPayload` | Event data escaped into a GraphQL string inside a JSON string, with both decoders (section 7 of RFC 8259; section 2.9.4 of the GraphQL specification, October 2021) |
| `Manifest` | Placeholder substitution in agent manifests |
| `QuotedPairs` | The reader of `key="value",` lists |
| `JsText`, `PromLabels`, `PromOperators`, `PromRepeats`, `PromRoundTrip`, `PromEdits`, `PromPlaces`, `PromReadBack` | The label editor and reader of PromQL queries as text operations, reading of other operators and of repeated labels, the round trip, edits of labels that are there already, which matcher they hit, and what is read after them |
| `PromSteps` | The choice of query steps |
| `Usage`, `UsagePages`, `UsageFigures` | The usage aggregation: group, join, filter, page and total; what pages of separate requests show together; and what the figures count |
| `Upgrade` | The walk through the version table |
| `Prelude`, `Text` | Shared datatypes and string functions |

## Where the code falls short

The model does what the code does; these are the places where that differs from what the code seems to be for.
Each is settled by a theorem that says exactly when the intended result comes about, and a lemma shows it fail
on a concrete input.

- Double escaping of event data does not reach every text: it arrives intact if and only if it contains no
  backslash and every character prints, is a tab, or lies between a space and U+FFFF
  (`GqlPayload.DataArrivesExactly`). JSON text has backslashes as soon as a value contains a quote, a control
  character, or `<`, `>` or `&`, which Go's encoder writes as escapes (`GqlPayload.QuotedValueIsLost`). Characters
  beyond U+FFFF that Go does not print are quoted in a form that is no JSON
  (`GqlPayload.UnprintedCharacterIsLost`).
- The first label written into a query without a selector is not followed by a comma, and the reader cuts two
  characters off the last matcher. Such labels are read back completely if and only if there is just one
  (`PromRoundTrip.SetThenGetWithoutSelector`, `PromRoundTrip.FirstOfTwoIsLost`).
- The reader looks for `!~` before `=`, anywhere in a matcher: a label whose value contains `!~` is not read, if its
  own operator is one of these two, and only then (`PromOperators.AnyMatcherIsRead`,
  `PromOperators.ValueWithOperatorIsLost`).
- The editor looks for a label's name as any text after the first brace, so that it can come upon another label
  whose name or value contains it, and replaces the first text in the query that equals the quoted value it finds
  there. New values without `$`-patterns reach the label's own matcher if and only if its name is found there
  first and no earlier quoted text equals its present value (`PromPlaces.UpdatesExactly`,
  `PromPlaces.OtherLabelIsUpdated`, `PromEdits.SameValueIsMissed`). Values with such patterns are expanded
  (`PromEdits.PatternIsExpanded`).
- Removal looks for the name in the same way. It takes away the label's own matcher if and only if the first copy of
  the stretch it finds is that matcher's, or leaves the same text behind (`PromPlaces.RemovesExactly`,
  `PromPlaces.RemovesInPlace`, `PromPlaces.OtherLabelIsRemoved`).
- Removing the only label of a selector takes one character on either side with it. The opening brace is always
  one of them, the closing brace if and only if it comes right after the value or after its comma
  (`PromEdits.BracesGoExactly`, `PromEdits.ClosingBraceIsLeft`).
- `strings.Trim(repo, ".git")` trims a set of characters, not a suffix: repositories of one owner share a lock
  key if and only if their names agree once `.`, `g`, `i` and `t` are trimmed from their ends
  (`GitKeys.SharedKeyExactly`, `GitKeys.TwoRepositoriesOneKey`). That is still safe, since it only makes the lock
  coarser.
- Threads that take keys in a fixed order never deadlock (`GitLock.NoDeadlock`); nothing in the lock makes them.
  Threads that each wait for a key one of them holds never move again, and there is no other kind of deadlock
  (`GitLock.KnotIsForGood`, `GitLock.DeadlockIsAKnot`). Runs get there: with one thread that asks for its own key,
  and with two threads that take two keys in opposite orders (`GitLock.SameKeyTwice`, `GitLock.OppositeOrders`).
- The usage query groups by project id and keeps no names, so that a search by project name finds nothing and
  the request fails (`Usage.GetUsageData`, `Usage.SearchForTheOnlyProject`).
- Each page of the usage list is a request of its own, and nothing breaks ties. All requests have one list if and
  only if no two projects have equal keys, and the pages have every project once if and only if no page ends between
  equal keys (`UsagePages.OneListExactly`, `UsagePages.PagesAreCompleteExactly`). Otherwise a project can be on two
  pages and another one on none (`UsagePages.SameProjectTwice`).
- A deactivated user who can still reach project creation gets a project that is not marked as removed; every
  other request keeps the marks right (`Membership.StepRemovedAtExactly`, `Membership.DeactivatedCreator`).
- The condition evaluator panics exactly when a loop gets to a condition that compares two lists or two objects,
  or that changed and lacks the text its operator needs (`Conditions.ConditionChecker`,
  `Conditions.MissingTextCrashes`, `Conditions.ListsCrash`). Whether it gets there can depend on the order of the
  conditions: `Conditions.AndOrderExactly` and `Conditions.OrOrderExactly` say exactly when it does not, and
  `Conditions.OrderDecidesAnd` and `Conditions.OrderDecidesOr` show conditions for which it does.

## Model

| member | source | states |
|---|---|---|
| `RunEvents.StrConvTime` | litmus-portal/cluster-agents/subscriber/pkg/events/util.go:119-126 | A time is shown as empty exactly when it is before the epoch |
| `RunEvents.VerdictFailsExactly` | litmus-portal/cluster-agents/subscriber/pkg/events/util.go:26-74 | Chaos data has a failing verdict if and only if the engine is not older than its node and was stopped, or completed without its first experiment passing, or that experiment failed itself |
| `RunEvents.DetailsFailing` | litmus-portal/cluster-agents/subscriber/pkg/events/workflow.go:142-167 | A node keeps the verdict it was fetched with, and a failing one is shown as failed |
| `RunEvents.DetailsExactly` | litmus-portal/cluster-agents/subscriber/pkg/events/workflow.go:142-166 | Each field of a node is that of its status, times as texts, except that a failing verdict shows as phase "Failed", with its message and the verdict "Fail" |
| `RunEvents.CheckedExactly` | litmus-portal/cluster-agents/subscriber/pkg/events/util.go:77-104 | A node is reported as a chaos engine exactly if its manifest makes one, and then with that engine's data unless it is pending or the engine's name cannot be told |
| `RunEvents.ChaosDataOfEngine` | litmus-portal/cluster-agents/subscriber/pkg/events/util.go:26-44 | There is chaos data exactly if the engine is found and not older than the node, and it names that engine |
| `RunEvents.ChaosDataOfExperiment` | litmus-portal/cluster-agents/subscriber/pkg/events/util.go:50-73 | Pods, name and update time are the first experiment's; probe success and failed step come from the result of an only experiment, if it could be fetched |
| `RunEvents.ChaosDataVerdict` | litmus-portal/cluster-agents/subscriber/pkg/events/util.go:45-63 | Verdict and status are "Fail" and the engine's status if the engine was stopped, or completed without its first experiment passing, and that experiment's own otherwise |
| `RunEvents.BuildNodes` | litmus-portal/cluster-agents/subscriber/pkg/events/workflow.go:135-168 | The loop yields one node per node status whatever the visiting order, and its failure flag is set if and only if some node fails |
| `RunEvents.WorkflowEventHandler` | litmus-portal/cluster-agents/subscriber/pkg/events/workflow.go:107-192 | Which runs are ignored; the whole event of any other run; a failing verdict on any node shows on that node and as run phase "Failed" |
| `RunEvents.ChaosEventHandler` | litmus-portal/cluster-agents/subscriber/pkg/events/chaosengine.go:72-157 | Which engines are ignored; the whole event of any other engine, its phase and end derived from verdict and engine status; a failing verdict shows as phase "Failed" |
| `EventCache.Subscriber.MergeCached` | litmus-portal/cluster-agents/subscriber/pkg/events/workflow.go:196-210 | The in-place merge over the keys of the cached map, in any order, equals one simultaneous merge of the two events, also when both share one node map |
| `EventCache.Subscriber.FillIn` | litmus-portal/cluster-agents/subscriber/pkg/events/workflow.go:196-210 | Merging happens exactly when the run is in the cache |
| `EventCache.Subscriber.StripMessages` | litmus-portal/cluster-agents/subscriber/pkg/events/util.go:155-158 | The loop removes the double quotes of every message in the shared map and nothing else |
| `EventCache.Subscriber.Absorb` | litmus-portal/cluster-agents/subscriber/pkg/events/workflow.go:196-214 | The cache afterwards holds the merged event with its messages rewritten, because the map is shared; entries of other runs stay as they are |
| `EventCache.Subscriber.Complete` | litmus-portal/cluster-agents/subscriber/pkg/events/workflow.go:219-222 | Preparing the payload a second time sends the same event, and the run leaves the cache |
| `EventCache.Subscriber.SendWorkflowUpdates` | litmus-portal/cluster-agents/subscriber/pkg/events/workflow.go:195-230 | What is sent and what the cache holds afterwards, as functions of the cache before, the event and the marshalling outcome |
| `EventCache.MergeOneMore` | litmus-portal/cluster-agents/subscriber/pkg/events/workflow.go:197-209 | Visiting one more key of the cached map extends the simultaneous merge by that key, and fails the run exactly if that key carries a failure |
| `EventCache.MergedWithItself` | litmus-portal/cluster-agents/subscriber/pkg/events/workflow.go:197-209 | Merging a map into itself changes nothing |
| `EventCache.StrippedTwice` | litmus-portal/cluster-agents/subscriber/pkg/events/util.go:155-158 | Rewriting messages again changes nothing |
| `EventHistory.CacheFollowsSupply` | litmus-portal/cluster-agents/subscriber/pkg/events/workflow.go:195-222 | After any history the cache can hand on chaos data for a key if and only if some delivery of the history supplies it, and then it is that delivery's data, phase and message |
| `EventHistory.AgreeStep` | litmus-portal/cluster-agents/subscriber/pkg/events/workflow.go:195-222 | One more delivery keeps cache and history in agreement |
| `EventHistory.PreparedNode` | litmus-portal/cluster-agents/subscriber/pkg/events/workflow.go:196-214 | The node emitted for a key is the event's own unless it lacks chaos data that the cache can hand on |
| `EventHistory.EmittedInheritsExactly` | litmus-portal/cluster-agents/subscriber/pkg/events/workflow.go:195-222 | An emitted event without own chaos data for a key shows the supplying delivery's data, phase and unquoted message, and shows none exactly if no delivery supplies any; all other fields of its nodes are its own |
| `EventHistory.EmittedRunExactly` | litmus-portal/cluster-agents/subscriber/pkg/events/workflow.go:195-222 | Over any history, an emitted event has the run fields it was delivered with, except that phase and message are those of a failed run if and only if some delivery supplies a failed node on which it has no chaos data itself |
| `EventHistory.EmittedNodesExactly` | litmus-portal/cluster-agents/subscriber/pkg/events/workflow.go:195-222 | An event is emitted exactly if its payload can be made, as completed exactly if it has an end; its nodes are the delivered ones and those for which some delivery supplies chaos data |
| `EventHistory.WorkflowReportsExactly` | litmus-portal/cluster-agents/subscriber/pkg/events/workflow.go:135-168 | A workflow's event reports chaos data for a node, as a chaos engine, exactly if the node's manifest makes one that is found, not pending and not older than the node |
| `EventHistory.LatestChaosDataIsShown` | litmus-portal/cluster-agents/subscriber/pkg/events/workflow.go:195-222 | The latest chaos data since the run last finished is shown if and only if the node kept being reported as a chaos engine |
| `EventHistory.CacheHoldsUnfinishedRuns` | litmus-portal/cluster-agents/subscriber/pkg/events/workflow.go:211-222 | The cache holds exactly the runs whose last event was not a finished one that could be sent |
| `EventHistory.OtherRunsAreInvisible` | litmus-portal/cluster-agents/subscriber/pkg/events/workflow.go:195-222 | What a run emits does not depend on deliveries of other runs |
| `EventHistory.EmittedShowsFailures` | litmus-portal/cluster-agents/subscriber/pkg/events/workflow.go:195-222 | Every emitted event with a failing node, fetched now or inherited over any number of events, has run phase "Failed" |
| `EventHistory.PreparedShowsFailures` | litmus-portal/cluster-agents/subscriber/pkg/events/workflow.go:198-208 | The merge hands a failure on together with the run's phase |
| `GitKeys.UrlKey` | litmus-portal/graphql-server/pkg/gitops/git-lock.go:52-59 | The key of any URL is owner, trimmed name and branch |
| `GitKeys.AllUrlsOfARepositoryShareAKey` | litmus-portal/graphql-server/pkg/gitops/git-lock.go:52-59 | The https and ssh URLs of a repository, with or without ".git", have one key |
| `GitKeys.SharedKeyExactly` | litmus-portal/graphql-server/pkg/gitops/git-lock.go:52-59 | Two repositories and branches share a key if and only if owner, trimmed name and branch agree |
| `GitKeys.TwoRepositoriesOneKey` | litmus-portal/graphql-server/pkg/gitops/git-lock.go:52-59 | Two repositories of one owner with different names and one key |
| `GitKeys.TrimRightExactly` | litmus-portal/graphql-server/pkg/gitops/git-lock.go:56 | What is trimmed is the longest end made of `.`, `g`, `i` and `t` |
| `GitKeys.ShortUrlKey` | litmus-portal/graphql-server/pkg/gitops/git-lock.go:52-59 | With one separator only, the owner is trimmed at its beginning as well |
| `GitKeys.PanicsExactly` | litmus-portal/graphql-server/pkg/gitops/git-lock.go:52-59 | The program panics exactly on a repository without a separator |
| `GitKeys.ProjectKeysAreTheirOwn` | litmus-portal/graphql-server/pkg/gitops/git-lock.go:52-55 | Two projects have different keys, and no project has the key of a repository |
| `GitKeys.ProjectBeforeRepository` | litmus-portal/graphql-server/pkg/gitops/handler/handler.go:47-51 | Locking a project and then its repository goes up in rank, so that the lock's ordering rule is met |
| `GitLock.StepInv` | litmus-portal/graphql-server/pkg/gitops/git-lock.go:17-42 | Every atomic step of Lock and Unlock keeps the lock invariant, for threads that unlock only what they locked |
| `GitLock.RunInv` | litmus-portal/graphql-server/pkg/gitops/git-lock.go:17-50 | The invariant holds in every state of every such run |
| `GitLock.MutualExclusion` | litmus-portal/graphql-server/pkg/gitops/git-lock.go:17-29 | At most one thread holds a given key, and a held key's mutex is locked |
| `GitLock.HeldExactly` | litmus-portal/graphql-server/pkg/gitops/git-lock.go:17-42 | In every run a thread holds a key if and only if its last call for that key, of those that returned, was of Lock |
| `GitLock.WaitsExactly` | litmus-portal/graphql-server/pkg/gitops/git-lock.go:27 | A thread that waits for a key can lock it if and only if no thread holds it |
| `GitLock.TakesKey` | litmus-portal/graphql-server/pkg/gitops/git-lock.go:17-29 | From any state of a run, a call of Lock that finds the map mutex free and the key unheld ends with the key held and nothing else changed |
| `GitLock.ReleasesKey` | litmus-portal/graphql-server/pkg/gitops/git-lock.go:32-42 | From any state of a run, a call of Unlock that finds the map mutex free ends with the key given up, its mutex unlocked and nothing else changed |
| `GitLock.MutexIsNeverReplaced` | litmus-portal/graphql-server/pkg/gitops/git-lock.go:20-25 | A key keeps its mutex for good and no other key gets the same one |
| `GitLock.UnlockFindsItsKeyLocked` | litmus-portal/graphql-server/pkg/gitops/git-lock.go:32-42 | The return for a missing key, which would keep the map mutex, is never taken, and no unlocked mutex is unlocked |
| `GitLock.MapOwnerNeverWaits` | litmus-portal/graphql-server/pkg/gitops/git-lock.go:20-25 | The owner of the map mutex can always take its next step; it never waits for a key |
| `GitLock.FollowHolders` | litmus-portal/graphql-server/pkg/gitops/git-lock.go:27-29 | From a thread waiting for a key, following holders ends at a thread that can go on |
| `GitLock.NoDeadlock` | litmus-portal/graphql-server/pkg/gitops/git-lock.go:17-42 | In runs that keep to an order of keys, in particular with at most one key per thread, some thread can go on as long as some thread is inside Lock or Unlock |
| `GitLock.OrderedRunInv` | litmus-portal/graphql-server/pkg/gitops/git-lock.go:17-29 | In such runs every thread about to lock a key holds only lower ones |
| `GitLock.KnotIsForGood` | litmus-portal/graphql-server/pkg/gitops/git-lock.go:17-42 | Threads that each wait for a key one of them holds take no step in any later state of the run |
| `GitLock.DeadlockIsAKnot` | litmus-portal/graphql-server/pkg/gitops/git-lock.go:17-42 | In any run, if some thread is inside Lock or Unlock and none can go on, the waiting threads are such threads |
| `GitLock.SameKeyTwice` | litmus-portal/graphql-server/pkg/gitops/git-lock.go:17-29 | A run from the start in which a thread asks for the key it holds and is stuck, for every thread and key |
| `GitLock.OppositeOrders` | litmus-portal/graphql-server/pkg/gitops/git-lock.go:17-29 | A run from the start in which two threads that take two keys in opposite orders get stuck, for all threads and keys |
| `Conditions.ConditionChecker` | litmus-portal/cluster-agents/event-tracker/pkg/utils/utils.go:69-130 | The result of both kinds of policy, a panic included, for every condition and value |
| `Conditions.AndLoop` | litmus-portal/cluster-agents/event-tracker/pkg/utils/utils.go:71-100 | With its early exits, the loop panics exactly if the first condition at which it stops makes it, and else is true if and only if every lookup succeeds, something changed and every change is wanted |
| `Conditions.OrLoop` | litmus-portal/cluster-agents/event-tracker/pkg/utils/utils.go:101-127 | The loop panics exactly if it gets to a condition that makes it, and else is true if and only if no old value fails to be looked up and some change is wanted |
| `Conditions.AndOfUnobjectionable` | litmus-portal/cluster-agents/event-tracker/pkg/utils/utils.go:71-100 | If every lookup succeeds, all values can be compared and every change is as its operator asks, "and" is true exactly if something changed |
| `Conditions.AndOfFirstObjection` | litmus-portal/cluster-agents/event-tracker/pkg/utils/utils.go:71-100 | Otherwise the first condition for which this fails decides: it panics over values that cannot be compared or a missing text, and gives false in all other cases |
| `Conditions.OrOfEvaluable` | litmus-portal/cluster-agents/event-tracker/pkg/utils/utils.go:101-127 | If every condition can be evaluated, "or" is true exactly if some value changed as its operator asks |
| `Conditions.OrOfFirstTrouble` | litmus-portal/cluster-agents/event-tracker/pkg/utils/utils.go:101-127 | Otherwise the first condition that cannot decides: it gives false if its old value cannot be looked up, and panics if not |
| `Conditions.AndOrderExactly` | litmus-portal/cluster-agents/event-tracker/pkg/utils/utils.go:71-100 | The "and" result is the same in every order if and only if no condition can make the loop panic, or nothing can stop it before one does |
| `Conditions.OrOrderExactly` | litmus-portal/cluster-agents/event-tracker/pkg/utils/utils.go:101-127 | The "or" result is the same in every order if and only if there is not both a condition that can make the loop panic and one that can stop it before |
| `Conditions.PermutingKeepsWhatHolds` | litmus-portal/cluster-agents/event-tracker/pkg/utils/utils.go:69-130 | What the two kinds of policy ask of the conditions does not depend on their order |
| `Conditions.OrderDecidesAnd` | litmus-portal/cluster-agents/event-tracker/pkg/utils/utils.go:71-100 | Two conditions for which "and" is false in one order and panics in the other |
| `Conditions.OrderDecidesOr` | litmus-portal/cluster-agents/event-tracker/pkg/utils/utils.go:101-127 | Two conditions for which "or" is false in one order and panics in the other |
| `Conditions.MissingTextCrashes` | litmus-portal/cluster-agents/event-tracker/pkg/utils/utils.go:85-95 | A changed number compared with a missing text makes both loops panic |
| `Conditions.ListsCrash` | litmus-portal/cluster-agents/event-tracker/pkg/utils/utils.go:85-87 | A key that selects a list makes both loops panic, even with operator "Change" |
| `Conditions.WithoutLookupErrors` | litmus-portal/cluster-agents/event-tracker/pkg/utils/utils.go:69-130 | Without lookup errors, what both kinds of policy ask depends only on which comparable values differ and pass; "and" implies "or"; without panics it is what the loops return |
| `Conditions.OperatorsComeInPairs` | litmus-portal/cluster-agents/event-tracker/pkg/utils/utils.go:50-67 | Each operator is the negation of its opposite |
| `Conditions.LessExactly` | litmus-portal/cluster-agents/event-tracker/pkg/utils/utils.go:56-63 | A text is less than another if and only if it is a proper beginning of it, or has the smaller character where they first differ |
| `Conditions.CasesExactly` | litmus-portal/cluster-agents/event-tracker/pkg/utils/utils.go:50-67 | What each of the six operators decides, by that order, and that no other operator is satisfied |
| `Conditions.LessIsTotal` | litmus-portal/cluster-agents/event-tracker/pkg/utils/utils.go:50-67 | Any two different texts are ordered one way or the other |
| `Conditions.LessIsAsymmetric` | litmus-portal/cluster-agents/event-tracker/pkg/utils/utils.go:50-67 | The order of texts never goes both ways |
| `Conditions.LessIsTransitive` | litmus-portal/cluster-agents/event-tracker/pkg/utils/utils.go:50-67 | The order of texts is transitive |
| `PolicyStore.Sweep` | litmus-portal/cluster-agents/event-tracker/controllers/eventtrackerpolicy_controller.go:77-99 | Which requests the loop sends and what it makes of the statuses, in place, up to the end or to the first unanswered request |
| `PolicyStore.NothingWaitsNothingAsked` | litmus-portal/cluster-agents/event-tracker/controllers/eventtrackerpolicy_controller.go:77-99 | Once every passed status is "true" a further sweep sends nothing and changes nothing |
| `PolicyStore.WaitingExactly` | litmus-portal/cluster-agents/event-tracker/controllers/eventtrackerpolicy_controller.go:78 | A passed status waits exactly if its mark is "false", in capitals or not |
| `PolicyStore.SweptExactly` | litmus-portal/cluster-agents/event-tracker/controllers/eventtrackerpolicy_controller.go:93-97 | After a finished sweep a waiting status is "true" if its workflow was run, and still waits if and only if the reply was that this is disabled; the others are as they were |
| `PolicyStore.SecondSweepAsks` | litmus-portal/cluster-agents/event-tracker/controllers/eventtrackerpolicy_controller.go:77-99 | A second sweep asks for exactly those whose reply was that this is disabled |
| `PolicyStore.StepInv` | litmus-portal/cluster-agents/event-tracker/controllers/eventtrackerpolicy_controller.go:68-104 | Every read, sweep step and compare-and-swap write keeps the invariant and lets the object only grow and be marked |
| `PolicyStore.RunInv` | litmus-portal/cluster-agents/event-tracker/controllers/eventtrackerpolicy_controller.go:68-104 | In every reachable state every pending write is based on a version there was, and versions and requests only accumulate |
| `PolicyStore.StepsFollowTheLoop` | litmus-portal/cluster-agents/event-tracker/controllers/eventtrackerpolicy_controller.go:77-99 | The steps of the protocol make of a reconciler's copy what the loop makes of it |
| `PolicyStore.WritesStoredExactly` | litmus-portal/cluster-agents/event-tracker/controllers/eventtrackerpolicy_controller.go:101 | A write is stored if and only if the object is still at the version it is based on, and nothing else changes the object |
| `PolicyStore.ReconcileAlone` | litmus-portal/cluster-agents/event-tracker/controllers/eventtrackerpolicy_controller.go:68-104 | From any state, a reconciler that nobody interferes with, its requests answered, stores what its loop makes of the object |
| `PolicyStore.AuditAlone` | litmus-portal/cluster-agents/event-tracker/pkg/utils/utils.go:154-285 | From any state, an auditor that nobody interferes with stores a status with the fields it came with, at the end, and it waits |
| `PolicyStore.ReconcilersSweep` | litmus-portal/cluster-agents/event-tracker/controllers/eventtrackerpolicy_controller.go:68-99 | In every run, what a reconciler has in hand is what its loop makes of the version it read, with the replies it was given since |
| `PolicyStore.AcceptedWriteIsASweep` | litmus-portal/cluster-agents/event-tracker/controllers/eventtrackerpolicy_controller.go:68-104 | In every run, a reconciler's stored write turns the object into what its loop makes of it, and the statuses that still wait are those whose reply was that this is disabled |
| `PolicyStore.StatusesAreKept` | litmus-portal/cluster-agents/event-tracker/controllers/eventtrackerpolicy_controller.go:68-104 | Under every interleaving, stored statuses stay at their places with only IsTriggered changed, and only on statuses that were waiting |
| `PolicyStore.TriggeredIsFinal` | litmus-portal/cluster-agents/event-tracker/controllers/eventtrackerpolicy_controller.go:93-97 | A status marked "true" never changes again |
| `PolicyStore.TriggeredWasAsked` | litmus-portal/cluster-agents/event-tracker/controllers/eventtrackerpolicy_controller.go:78-97 | Every "true" status had a request sent, unless it was "true" from the start |
| `PolicyStore.TriggeredWasNotified` | litmus-portal/cluster-agents/event-tracker/controllers/eventtrackerpolicy_controller.go:78-97 | In every run a status is "true" only if it was at the start, or some process was told that its workflow was run |
| `PolicyStore.NothingIsLostOrReordered` | litmus-portal/cluster-agents/event-tracker/pkg/utils/utils.go:154-285 | Marks aside, the object is always the initial statuses followed by exactly the statuses auditors were told are stored, in that order |
| `PolicyStore.AppendStep` | litmus-portal/cluster-agents/event-tracker/pkg/utils/utils.go:260-285 | A step adds to the object exactly what it adds to that record |
| `PolicyStore.AppendedWasBrought` | litmus-portal/cluster-agents/event-tracker/pkg/utils/utils.go:154-285 | In every run each stored status has the fields some auditor came with, passed and not triggered |
| `Projects.ProjectStore.GetInvitation` | litmus-portal/authentication/api/handlers/rest/project_handler.go:220-232 | The search loop finds the invitation of the user's entry, and fails exactly for an unknown project |
| `Projects.ProjectStore.AddMember` | litmus-portal/authentication/pkg/project/repository.go:172-187 | The new store: one member more at the end, or unchanged for an unknown project |
| `Projects.ProjectStore.RemoveMember` | litmus-portal/authentication/pkg/project/repository.go:190-213 | The new store: no entry of the user left and every other entry kept |
| `Projects.ProjectStore.UpdateInvite` | litmus-portal/authentication/pkg/project/repository.go:216-259 | The new store: the user's entries with the new invitation, and the fields each invitation brings along |
| `Projects.ProjectStore.CreateProject` | litmus-portal/authentication/api/handlers/rest/project_handler.go:234-296 | The answer in every case, and the new store |
| `Projects.ProjectStore.SendInvitation` | litmus-portal/authentication/api/handlers/rest/project_handler.go:328-412 | The answer in every case, and the new store |
| `Projects.ProjectStore.AcceptInvitation` | litmus-portal/authentication/api/handlers/rest/project_handler.go:415-447 | The answer in every case, and the new store |
| `Projects.ProjectStore.DeclineInvitation` | litmus-portal/authentication/api/handlers/rest/project_handler.go:450-482 | The answer in every case, and the new store |
| `Projects.ProjectStore.LeaveProject` | litmus-portal/authentication/api/handlers/rest/project_handler.go:485-517 | The answer in every case, and the new store |
| `Projects.ProjectStore.RemoveInvitation` | litmus-portal/authentication/api/handlers/rest/project_handler.go:520-574 | The answer in every case, and the new store |
| `Projects.ProjectStore.UpdateStateTransaction` | litmus-portal/authentication/pkg/services/transaction_service.go:18-72 | The answer in every case, and the new users and projects |
| `Membership.StepInv` | litmus-portal/authentication/api/handlers/rest/project_handler.go:234-574 | Whatever its body says, every request keeps one entry per user, at most one owner, and no other roles than Owner, Editor and Viewer |
| `Membership.RunInv` | litmus-portal/authentication/pkg/project/repository.go:172-259 | The same in every reachable state |
| `Membership.AccessCheckAgreesWithRole` | litmus-portal/authentication/pkg/validations/rbac_validator.go:11-51 | In every reachable state, for an active user, the access check with "Accepted" succeeds if and only if the reported role is among the required ones |
| `Membership.AcceptedRoleOfTheEntry` | litmus-portal/authentication/pkg/project/repository.go:369-395 | With one entry per user, the reported role is the role of that entry if it is accepted |
| `Membership.EntryAfterAnswer` | litmus-portal/authentication/api/handlers/rest/project_handler.go:415-517 | Accepting, declining and leaving move the caller's own pending or accepted entry, keep its role, set the joining time on acceptance only, and change no other entry |
| `Membership.EntryAfterSend` | litmus-portal/authentication/api/handlers/rest/project_handler.go:328-412 | Sending leaves the invited user pending as editor or viewer, was done by an owner, and changes nothing else |
| `Membership.EntryAfterRemove` | litmus-portal/authentication/api/handlers/rest/project_handler.go:520-574 | Removing was done by an owner and removes that user's entry only |
| `Membership.EntryAfter` | litmus-portal/authentication/api/handlers/rest/project_handler.go:234-574 | Any request leaves an entry as it is or moves it along the table of moves |
| `Membership.AnswersAllowedExactly` | litmus-portal/authentication/api/handlers/rest/project_handler.go:415-517 | In every reachable state the requests to accept and to decline are carried out if and only if the caller is active and invited as an editor or viewer, and to leave if and only if the caller is active and has joined as one |
| `Membership.OwnerRequestsAllowedExactly` | litmus-portal/authentication/api/handlers/rest/project_handler.go:328-574 | In every reachable state only an active owner can invite, exactly those users who are not members yet as editors or viewers, and remove, exactly those who are members or invited |
| `Membership.CreateAndSetStateExactly` | litmus-portal/authentication/api/handlers/rest/project_handler.go:234-296 | A project is created exactly for an existing user under a new name; exactly users who are no administrators can be activated, and, if they are active, deactivated |
| `Membership.RequestFrame` | litmus-portal/authentication/api/handlers/rest/project_handler.go:234-574 | What a request leaves alone: other projects' members, all names, marks unless an account changes state, and all other accounts |
| `Membership.NamesStayUnique` | litmus-portal/authentication/api/handlers/rest/project_handler.go:254-266 | In every run no two projects have one name, and administrators stay active |
| `Membership.InvitationsMoveByTheTable` | litmus-portal/authentication/api/handlers/rest/project_handler.go:328-574 | In every run in which answers name the caller, invitations move only by the allowed moves and by whom the table names |
| `Membership.PendingWasInvited` | litmus-portal/authentication/api/handlers/rest/project_handler.go:328-412 | Every pending member was invited by an owner and has been pending since |
| `Membership.AcceptedWasInvitedAndAccepted` | litmus-portal/authentication/api/handlers/rest/project_handler.go:328-447 | Every accepted member other than an owner was invited by an owner, stayed pending until accepting in person, and has neither left nor been removed since |
| `Membership.LeavingEndsMembership` | litmus-portal/authentication/api/handlers/rest/project_handler.go:485-574 | Leaving and removal end the membership |
| `Membership.OwnersStayAccepted` | litmus-portal/authentication/api/handlers/rest/project_handler.go:328-574 | In every run in which answers name the caller, owners' own entries stay accepted |
| `Membership.StepRemovedAtExactly` | litmus-portal/authentication/pkg/project/repository.go:285-328 | A request keeps every project marked as removed exactly when its owner is deactivated, if and only if it is not the creation of a project by a deactivated user |
| `Membership.RemovedExactlyWhenOwnerDeactivated` | litmus-portal/authentication/pkg/services/transaction_service.go:18-72 | After any mix of requests, with projects created by active users, a project is marked as removed exactly when its owner is deactivated |
| `Membership.DeactivationHidesOwnedProjects` | litmus-portal/authentication/pkg/project/repository.go:67-109 | Deactivating a user hides exactly the projects the user owns, from everybody |
| `Membership.SeesExactly` | litmus-portal/authentication/pkg/project/repository.go:82-95 | In every reachable state a user sees exactly the projects that are not removed and that the user has joined or is invited to |
| `Membership.ListAfterRequest` | litmus-portal/authentication/api/handlers/rest/project_handler.go:234-574 | Creating, being invited and accepting put a project on the user's list or keep it there, declining, leaving and being removed take it off, and no other request about members changes the list |
| `Membership.DeactivateThenActivate` | litmus-portal/authentication/pkg/services/transaction_service.go:18-72 | In every reachable state, deactivating and reactivating an active user who is no administrator restores the store, and with it every user's project list |
| `Membership.RunKeepsUnmarked` | litmus-portal/authentication/pkg/services/transaction_service.go:18-72 | In every reachable state, projects of active owners are not marked as removed |
| `Membership.DeactivatedCreator` | litmus-portal/authentication/api/handlers/rest/project_handler.go:234-296 | A deactivated user's new project is not marked as removed |
| `GqlPayload.MarshalledIsEscaped` | litmus-portal/cluster-agents/subscriber/pkg/graphql/operations.go:33-43 | Quoting, with all of its escapes, and then replacing amounts to escaping character by character |
| `GqlPayload.EscapedDecodes` | litmus-portal/cluster-agents/subscriber/pkg/graphql/operations.go:33-43 | If every character has a quoted form that is JSON, decoding once undoes one of the two escapes and does not end early |
| `GqlPayload.EscapedFails` | litmus-portal/cluster-agents/subscriber/pkg/graphql/operations.go:33-43 | With any other character the escaped data is no JSON |
| `GqlPayload.EmbeddedDecodes` | litmus-portal/cluster-agents/subscriber/pkg/graphql/operations.go:33-43 | Decoding again gives back data without backslashes and control characters and does not end early |
| `GqlPayload.LostCharactersShow` | litmus-portal/cluster-agents/subscriber/pkg/graphql/operations.go:33-43 | Data with a backslash or a control character other than a tab never comes back complete |
| `GqlPayload.PayloadIsTheQueryText` | litmus-portal/cluster-agents/subscriber/pkg/events/util.go:162-167 | The payload is one JSON string that decodes to the query text and ends where the payload ends it, if every character has a quoted form that is JSON, and no JSON otherwise |
| `GqlPayload.QueryTextExactly` | litmus-portal/cluster-agents/subscriber/pkg/events/util.go:152-168 | The query names each field of the request in its place, the data last |
| `GqlPayload.DataArrivesExactly` | litmus-portal/cluster-agents/subscriber/pkg/events/util.go:152-169 | The server reads exactly the data, ending before the query's own brackets, if and only if every character survives both escapes |
| `GqlPayload.QuotedValueIsLost` | litmus-portal/cluster-agents/subscriber/pkg/events/util.go:152-169 | A value with a quote does not arrive |
| `GqlPayload.UnprintedCharacterIsLost` | litmus-portal/cluster-agents/subscriber/pkg/events/util.go:152-169 | A value with a character beyond U+FFFF that does not print does not arrive |
| `Manifest.Substitute` | litmus-portal/graphql-server/utils/misc.go:149-180 | The reassigned content is the chain of replacements in the order of the table |
| `Manifest.ReplacingFills` | litmus-portal/graphql-server/utils/misc.go:151-179 | Replacing one placeholder in the text fills exactly its holes in the template |
| `Manifest.FillingKeepsWellFormed` | litmus-portal/graphql-server/utils/misc.go:151-179 | Filling in clean values creates no new placeholder |
| `Manifest.ChainIsSimultaneous` | litmus-portal/graphql-server/utils/misc.go:151-179 | The chain equals one simultaneous substitution |
| `Manifest.OrderIsIrrelevant` | litmus-portal/graphql-server/utils/misc.go:151-179 | Any order of the replacements gives the same text |
| `Manifest.NoPlaceholderIsLeft` | litmus-portal/graphql-server/utils/misc.go:151-179 | No replaced placeholder occurs in the result |
| `Manifest.ManifestIsFilledAtOnce` | litmus-portal/graphql-server/utils/misc.go:143-181 | For the program's own 22 placeholders, the last one only with a node selector: one simultaneous substitution, the same in any order, and none of them left |
| `Manifest.EachSettingInItsPlace` | litmus-portal/graphql-server/utils/misc.go:151-181 | A filled manifest has, for each placeholder by name, its own setting in its place, and everything else as it was |
| `QuotedPairs.FieldsFunc` | litmus-portal/graphql-server/utils/misc.go:219-237 | The scan with its open quotation mark splits the text into the specified fields |
| `QuotedPairs.GetKeyValueMapFromQuotedString` | litmus-portal/graphql-server/utils/misc.go:218-247 | The loop collects the items into a map, and panics exactly on an item without "=" or without a quoted value |
| `QuotedPairs.FieldsOfPrinted` | litmus-portal/graphql-server/utils/misc.go:219-237 | The fields of a printed list are its items, with spaces and other quotation marks in values |
| `QuotedPairs.ItemsCollect` | litmus-portal/graphql-server/utils/misc.go:239-246 | The items collect into the map that was printed |
| `QuotedPairs.ReadsBackWhatWasPrinted` | litmus-portal/graphql-server/utils/misc.go:218-247 | Reading a printed list gives back exactly the map it was printed from |
| `QuotedPairs.MapOfDistinct` | litmus-portal/graphql-server/utils/misc.go:239-246 | With distinct keys that map holds each printed pair and nothing else |
| `QuotedPairs.ItemExactly` | litmus-portal/graphql-server/utils/misc.go:239-246 | The value of an item is what is between its first `=` and the next one, without one character in front and two behind; the program panics if that has fewer than three |
| `QuotedPairs.PlainListIsRead` | litmus-portal/graphql-server/utils/misc.go:218-247 | A list of printable ASCII with different keys, with blanks, tabs or line ends between the pairs, is read as the map of these pairs |
| `PromLabels.AddTo` | litmus-portal/frontend/src/utils/promUtils.ts:363-378 | Values of a label that was seen before join those it has; a new label is added at the end |
| `PromLabels.GetLabelsAndValues` | litmus-portal/frontend/src/utils/promUtils.ts:333-384 | The loops read the pieces of the first selector, as specified by `Labels` |
| `PromLabels.SetLabelsAndValues` | litmus-portal/frontend/src/utils/promUtils.ts:386-462 | The reassigned query is the result of one edit after the other, with all branches of the edit |
| `PromLabels.InsertsFirst` | litmus-portal/frontend/src/utils/promUtils.ts:393-418 | A label that does not occur yet is written in front of the matchers there are |
| `PromLabels.WrittenReversed` | litmus-portal/frontend/src/utils/promUtils.ts:411-418 | New labels end up in reverse order |
| `PromLabels.MatcherIsRead` | litmus-portal/frontend/src/utils/promUtils.ts:350-377 | A written matcher is read as its label and values |
| `PromLabels.CutMatcherIsLost` | litmus-portal/frontend/src/utils/promUtils.ts:344-361 | A matcher without its closing quote is not read |
| `PromOperators.AnyMatcherIsRead` | litmus-portal/frontend/src/utils/promUtils.ts:350-377 | With blanks in front and any of the nine operators, a matcher is read as its label and values, except that one with `=` or `!~` whose value contains `!~` is not read at all |
| `PromOperators.ValueWithOperatorIsLost` | litmus-portal/frontend/src/utils/promUtils.ts:350-377 | A label with the value `x!~y` is not read |
| `PromRepeats.RepeatedLabelsAreJoined` | litmus-portal/frontend/src/utils/promUtils.ts:333-384 | A label that is repeated in a selector is read once, with the values of all its matchers in order |
| `PromRoundTrip.SelectorIsRead` | litmus-portal/frontend/src/utils/promUtils.ts:333-384 | Reading a selector of written matchers gives their labels in order, and what is made of the rest after the last comma |
| `PromRoundTrip.NewAreDistinct` | litmus-portal/frontend/src/utils/promUtils.ts:393-401 | Labels that are new when their turn comes are all different |
| `PromRoundTrip.SetThenGet` | litmus-portal/frontend/src/utils/promUtils.ts:333-462 | From the selector `{}`, setting any number of labels and reading gives back all labels and values in reverse order; a label without values comes back with one empty value |
| `PromRoundTrip.SetThenGetWithoutSelector` | litmus-portal/frontend/src/utils/promUtils.ts:402-410 | Without a selector everything comes back if and only if there is one label; otherwise all but the first do |
| `PromRoundTrip.SelectorBehindBase` | litmus-portal/frontend/src/utils/promUtils.ts:402-410 | The first selector is written right behind the base query, where that occurs first |
| `PromRoundTrip.FirstOfTwoIsLost` | litmus-portal/frontend/src/utils/promUtils.ts:402-410 | Of two labels written into a query without a selector, only the second is read back |
| `PromPlaces.FindsSomething` | litmus-portal/frontend/src/utils/promUtils.ts:393-426 | A label that has a matcher of its own is found, with two quotes behind it, there or earlier |
| `PromPlaces.UpdatesApart` | litmus-portal/frontend/src/utils/promUtils.ts:430-440 | Updates at two different places give different texts unless they change nothing, also if the one found is inside another label's name or value |
| `PromPlaces.UpdatesExactly` | litmus-portal/frontend/src/utils/promUtils.ts:393-440 | New quote-free values without `$`-patterns go to the label's own matcher if and only if its name is found there first and no earlier quoted text equals its present value; values that stay the same go there whenever it is found there first |
| `PromPlaces.OtherLabelIsUpdated` | litmus-portal/frontend/src/utils/promUtils.ts:393-440 | New values for the second of two labels go to the first one, whose name contains the second's |
| `PromEdits.SameValueIsMissed` | litmus-portal/frontend/src/utils/promUtils.ts:419-440 | Of two labels with one value, the edit of the second does not reach it |
| `PromEdits.PatternIsExpanded` | litmus-portal/frontend/src/utils/promUtils.ts:430-434 | Each of the four `$`-patterns in a new value is written as what it stands for |
| `PromPlaces.RemovesExactly` | litmus-portal/frontend/src/utils/promUtils.ts:393-457 | Removing a label takes away its own matcher, with a comma right behind it and, if it is taken to be alone, one character more on either side, if and only if the first copy of the stretch that is found is that one or leaves the same text behind |
| `PromPlaces.RemovesInPlace` | litmus-portal/frontend/src/utils/promUtils.ts:393-457 | In a query without a quote before the first brace and without a brace in the matcher that is found, that is so if and only if the label's name is found at its own matcher first, or the stretch around the place where it is found leaves the same text behind |
| `PromPlaces.OtherLabelIsRemoved` | litmus-portal/frontend/src/utils/promUtils.ts:393-457 | Removing the second of two labels gives its value to the first one, whose name contains the second's |
| `PromEdits.BracesGoExactly` | litmus-portal/frontend/src/utils/promUtils.ts:442-456 | For a lone matcher those characters start with the opening brace, and end in the closing one if and only if it comes right after the value or its comma |
| `PromEdits.ClosingBraceIsLeft` | litmus-portal/frontend/src/utils/promUtils.ts:442-456 | With a space before the closing brace, that brace is left behind |
| `PromEdits.RemovingUndoesWriting` | litmus-portal/frontend/src/utils/promUtils.ts:441-457 | Removing a label just written gives back the query, except that a selector that was empty goes with its braces |
| `PromReadBack.RemovingUndoesFirst` | litmus-portal/frontend/src/utils/promUtils.ts:402-457 | Removing the first label that was written into a query without a selector gives back the query |
| `PromReadBack.WithoutQuotesNothingChanges` | litmus-portal/frontend/src/utils/promUtils.ts:419-428 | A name that is found with fewer than two quotes behind it is left alone |
| `PromReadBack.ChangedValuesAreRead` | litmus-portal/frontend/src/utils/promUtils.ts:333-462 | In a selector of written matchers, a label that is found at its own matcher first, with a value no earlier text is like, is read back with its new values, and all others as before, in the same order |
| `PromReadBack.RemovedLabelIsGone` | litmus-portal/frontend/src/utils/promUtils.ts:333-462 | A label found at its own matcher first is not read back after its removal, and all others are, in the same order; the last label of a selector goes with the selector |
| `PromSteps.IndexOf` | litmus-portal/frontend/src/utils/promUtils.ts:62-66 | Finds a tabulated range, and only then |
| `PromSteps.NormalizedMinStep` | litmus-portal/frontend/src/utils/promUtils.ts:62-83 | Lookup and binary search yield the step of the least tabulated range not below the request, and none exactly beyond the table |
| `PromSteps.AtMostThirtyPoints` | litmus-portal/frontend/src/utils/promUtils.ts:35-42 | No range within the table gets more than 30 points |
| `PromSteps.RangesOffered` | litmus-portal/frontend/src/utils/promUtils.ts:35-38 | The tabulated ranges, from half a minute to two weeks |
| `PromSteps.GetPromQueryInput` | litmus-portal/frontend/src/utils/promUtils.ts:85-137 | Which step every query gets, and that every query over a tabulated range stays within the limit |
| `PromSteps.EventStepWithinLimit` | litmus-portal/frontend/src/utils/promUtils.ts:112-133 | The annotation queries stay within the limit for every range |
| `PromSteps.EventStepExactly` | litmus-portal/frontend/src/utils/promUtils.ts:112-133 | The annotation step is the scrape interval for short ranges, and for others the least step that stays within the limit |
| `PromSteps.KeepsStepExactly` | litmus-portal/frontend/src/utils/promUtils.ts:85-111 | A panel's step is kept if and only if it is a number that asks for fewer points than the limit |
| `Upgrade.UpgradeManager.VerifyPath` | litmus-portal/upgrade-agents/control-plane/versions/upgrade-manager.go:126-142 | On any acyclic table the walk terminates, and succeeds if and only if the target is reached in one or more steps |
| `Upgrade.UpgradeManager.RunManagers` | litmus-portal/upgrade-agents/control-plane/versions/upgrade-manager.go:153-164 | The managers on the way run in order up to the first that fails |
| `Upgrade.UpgradeManager.Run` | litmus-portal/upgrade-agents/control-plane/versions/upgrade-manager.go:145-172 | The stored version becomes the target only after all managers on the way succeeded; otherwise it stays, after a prefix of the way |
| `Upgrade.ManagersRunOnce` | litmus-portal/upgrade-agents/control-plane/versions/upgrade-manager.go:153-164 | On an acyclic table the managers that run are exactly those on the way, each once |
| `Upgrade.PathIsUnique` | litmus-portal/upgrade-agents/control-plane/versions/upgrade-manager.go:134-140 | There is only one way from a version to a target |
| `Upgrade.RankedIsAcyclic` | litmus-portal/upgrade-agents/control-plane/versions/upgrade-manager.go:57-122 | A table whose steps all lead to lower ranks has no cycle |
| `Upgrade.ReleasedTable` | litmus-portal/upgrade-agents/control-plane/versions/upgrade-manager.go:57-122 | The table of releases is acyclic and leads from each release to the next |
| `Upgrade.EveryReleaseReachesTheLast` | litmus-portal/upgrade-agents/control-plane/versions/upgrade-manager.go:57-122 | Every listed release but the last can be upgraded to the last |
| `Upgrade.WalkOfReleases` | litmus-portal/upgrade-agents/control-plane/versions/upgrade-manager.go:57-122 | From any release the walk goes through the later ones in order |
| `Upgrade.ManagersOfReleases` | litmus-portal/upgrade-agents/control-plane/versions/upgrade-manager.go:57-122 | Between any two releases, the manager of 2.3.0 runs if the way starts there, that of 2.5.0 if it passes it, and no other |
| `Usage.GetUsageData` | litmus-portal/graphql-server/pkg/usage/status.go:18-44 | Which error a request gets and exactly when; the page, totals and number of entries of any other, the totals being those of all projects whatever the sort and page |
| `Usage.UsageHelper` | litmus-portal/graphql-server/pkg/usage/status.go:46-266 | Which requests are refused and why; otherwise the page, the totals unless there is no project, and the number of entries unless there is none |
| `Usage.BuildStages` | litmus-portal/graphql-server/pkg/usage/status.go:48-90 | The stages appended for the page and for the count |
| `Usage.SearchForTheOnlyProject` | litmus-portal/graphql-server/pkg/usage/status.go:61-65 | Searching for the only project there is fails |
| `Usage.SearchFindsNothing` | litmus-portal/graphql-server/pkg/usage/status.go:61-65 | Since grouping keeps no names, searching by name matches no row |
| `Usage.ProjectsYield` | litmus-portal/graphql-server/pkg/usage/status.go:61-89 | The stages built for the projects yield the requested page of the sorted list |
| `Usage.EntriesYield` | litmus-portal/graphql-server/pkg/usage/status.go:61-90 | The stages built for the count yield the length of the whole list |
| `Usage.RowsPartition` | litmus-portal/graphql-server/pkg/usage/status.go:91-116 | A figure that totals over each project's joined items sums up to the total over the items of all grouped projects |
| `Usage.AgentTotalsAreConserved` | litmus-portal/graphql-server/pkg/usage/status.go:158-237 | The agent totals count every cluster that is not removed exactly once |
| `Usage.WorkflowTotalsAreConserved` | litmus-portal/graphql-server/pkg/usage/status.go:117-240 | The workflow totals are those of all workflows of grouped projects, each counted once |
| `Usage.AgentsAddUp` | litmus-portal/graphql-server/pkg/usage/status.go:158-212 | Namespace and cluster agents together, and active agents, are at most the total |
| `UsageFigures.RowAgents` | litmus-portal/graphql-server/pkg/usage/status.go:158-212 | A project's row counts its clusters that are not removed, all of them and by namespace scope, cluster scope and activity |
| `UsageFigures.TotalAgents` | litmus-portal/graphql-server/pkg/usage/status.go:228-251 | The totals count all clusters that are not removed in the same ways |
| `UsageFigures.RowWorkflows` | litmus-portal/graphql-server/pkg/usage/status.go:117-219 | A project's row counts its workflows created, and its runs last updated, in the time range, and adds up these runs' experiments |
| `UsageFigures.TotalWorkflows` | litmus-portal/graphql-server/pkg/usage/status.go:228-251 | The totals do so for the workflows of all projects that have a cluster |
| `UsageFigures.ProjectsAreCounted` | litmus-portal/graphql-server/pkg/usage/status.go:228-251 | The number of projects is that of the different projects clusters belong to |
| `UsageFigures.ListIsSorted` | litmus-portal/graphql-server/pkg/usage/status.go:67-85 | What a request can list is exactly the projects in any order by the figure and in the direction that were asked for |
| `UsageFigures.PageHas` | litmus-portal/graphql-server/pkg/usage/status.go:86-88 | Page n has the entries from n times the limit on, as many as the limit or as there are left |
| `UsagePages.MayListExactly` | litmus-portal/graphql-server/pkg/usage/status.go:66-90 | Without a search, a request can list the projects in any order that keeps to the sorting, and in no other way |
| `UsagePages.OneListExactly` | litmus-portal/graphql-server/pkg/usage/status.go:66-90 | All requests without a search for one database and time range have the same list if and only if no two projects have equal keys |
| `UsagePages.PagesAreTheList` | litmus-portal/graphql-server/pkg/usage/status.go:66-90 | If no two projects have equal keys, consecutive pages of separate requests concatenate to the list |
| `UsagePages.PagesAreCompleteExactly` | litmus-portal/graphql-server/pkg/usage/status.go:66-90 | Consecutive pages of separate requests have every project exactly once, whatever list each request has, if and only if no page ends between projects with equal keys |
| `UsagePages.AnswerIsAPage` | litmus-portal/graphql-server/pkg/usage/status.go:86-88 | What the contract of `Usage.GetUsageData` allows as answer to a request for a page is that page of a list the request may have, and nothing else |
| `UsagePages.SameProjectTwice` | litmus-portal/graphql-server/pkg/usage/status.go:66-90 | Of two projects with equal keys, the first page of one request and the second page of another show the same one |

## Left out

- Calls to Kubernetes, MongoDB, HTTP, gRPC and the clock: their answers are parameters, and stored collections are maps.
- JWT, bcrypt and OAuth: cryptographic libraries.
- User interface, routing, redux, generated code and single-branch validators: they would only add easy members.
- Git operations of `litmus-portal/graphql-server/pkg/gitops/gitops.go`: they depend on path filters of the go-git library, which is not part of this model.
- Reading a generated engine name from a pod's log, decoding of the executing user's name and JSON marshalling of an event: their results are parameters.
- RunEvents.WorkflowEventHandler: the failure to create a Kubernetes client is not modelled; it streams the same empty event as an ignored run.
- EventCache.Subscriber.SendWorkflowUpdates: sending the payload over the network, and its failure, are not modelled; they come after the cache is updated.
- Conditions.ConditionChecker: how values are printed for comparison is a parameter.
- PolicyStore.Sweep: the text of requests and replies is not modelled, only how a request ends.
- Projects.ProjectStore.CreateProject: the initialisation of the new project through gRPC, and the failure of inserting a random id that exists already, are reduced to one rejected answer.
- Projects.ProjectStore.SendInvitation: the user record found is taken to have the id that was asked for.
- Projects.ProjectStore.UpdateStateTransaction: users are found by id rather than by name, `deactivated_at` inside member entries is not modelled because the member record has no such field to read it with, and rollback is not modelled because the repository calls do not use the session.
- Each handler of projects is one atomic step: interleavings inside a handler are not modelled.
- GqlPayload.DataArrivesExactly: which characters beyond ASCII Go prints is a parameter; the quoting is that of Go 1.16, which the agent is built with; data does not end in a backslash, as JSON text does not; the other request fields are free of quotes and backslashes; characters beyond U+FFFF are taken as readers of UTF-16 text take them.
- Manifest.ManifestIsFilledAtOnce: reading files, rendering tolerations and node selectors as YAML and the namespace and account headers are not modelled; settings are values free of `#`, `{` and `}`, as the simultaneous reading needs.
- QuotedPairs.GetKeyValueMapFromQuotedString: text is a list of characters, while Go slices bytes; the slices at hand only cut ASCII characters off printed lists.
- PromLabels.SetLabelsAndValues: text is a list of Unicode characters rather than UTF-16 units, which shifts all positions alike.
- PromPlaces.UpdatesExactly: values with `$`-patterns and a found value whose own opening quote closes an earlier copy of it are modelled in the edit but not covered by this theorem, and values that stay the same are covered in one direction: what comes out then can coincide with the intended text by chance.
- UsagePages.PagesAreTheList: the database and the time range are taken to stay the same between the requests.
- PromSteps.GetPromQueryInput: floating-point division is taken as exact, and legends, resolutions and query texts, which are copied, are not modelled.
- Upgrade.UpgradeManager.Run: what a version manager does is not modelled; whether it succeeds is a parameter.
- Usage.GetUsageData: type conversion errors of the database and workflows without a list of runs are not modelled; the order of groups and of rows with equal keys is arbitrary.
