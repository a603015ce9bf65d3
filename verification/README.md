# Verification of strimserver

A model of the parts of strimserver where a mistake would be hardest to see, and proofs about it, in
Dafny. `dafny verify dfyconfig.toml` checks all of it.

- **The stream controller.** One goroutine owns the pipeline's state and handles actions from a
  bounded channel. `ControllerSpec` gives each handler as a function, `ControllerObject` the object
  that updates its fields in place and refines them, `ControllerHistory` what holds over every log of
  actions (launch spacing, convergence), `ControllerWiring` the two pipelines it is wired for, and
  `ControllerConcurrency` the goroutine among its submitters, ticker, failing operations and websocket
  clients, as a transition system: linearizability, the wait group, and what a slow client sees.
  `ControllerPathView` says when a client's view of the paths is behind.
- **Stage operations.** `StageOps`: stop and start in Go and in C against a containerd that answers in
  any way its state allows while tasks exit and objects vanish, and, in C, while a newer operation
  takes over the stage at any moment.
- **check-deps.** `Versions`, `IdentAgreement`, `Semver11` and `VersionChoice`: the version order, as
  the lexicographic order of a token key, where it departs from semver.org, and what is chosen with it. `Dependencies` and `ResolvePool`: the worker pool
  over a shared cache, under every schedule. `IgnoreRules`, `Findings`, `SortKeys` and `Report`: the
  report and the strict verdict.
- **Wire formats and texts.** `WebSocket` (RFC 6455), `Utf8` (RFC 3629), `DnsWire` and `DnsResponse`
  (RFC 1035), `DurationText`, `Durations` and `Rounding` (Go durations in C, in double precision),
  `Templates` (the envsubst replacement).
- **Scripts.** `KnownHosts` (the private known_hosts store) and `EventLog`, `Timeline`, `RowCap` (the
  stream analyser's timeline), over `StableSort` and `Cuts`.

Text in Go and C is a sequence of characters, one per byte; the wire formats use numbers below 256.
Integers are unbounded, and wrap-around or truncation is written out where it matters. Time, random
masks, the order in which a Go map is visited, chunk sizes, what containerd and the upstream servers
answer, and whether a newer operation has taken over are inputs or arbitrary choices. Calls that fail
are modelled as results.

Where a promise turns out not to hold for all inputs, the code is kept as it is and the exact
condition is proved, for all inputs: `Semver11.SemverOrderIsPrecedence`,
`VersionChoice.BreakingBumpIsUpgrade`, `DnsWire.QueryRoundTrip`, `Durations.DurationRoundTrip`,
`KnownHosts.RowsRoundTrip`, `KnownHosts.RunsStayHealthyIff`, `Dependencies.KeyNamesOneIdentity`,
`ControllerHistory.PathViewStaleIff`, `SortKeys.SortIsDeterminedIff`.

## Model

| member | source | states |
|---|---|---|
| `ControllerSpec.HandleKeepsShape` | core/controller/controller.go:178-348 | whatever is handled, the path and stage keys and the stages' operations stay, so every route still has its target |
| `ControllerSpec.AfterConcat` | core/controller/controller.go:178-186 | handling a log is handling its first part and then its second part |
| `ControllerHistory.MarkDecidesInFlight` | core/controller/controller.go:236-320 | the in-flight marker of a stage changes exactly at a launch (to the launch time) and at a clear (to none) |
| `ControllerHistory.MarksInvariant` | core/controller/controller.go:287-320 | over any run the marker is the last launch not yet cleared, and launches without a clear between them are a timeout apart |
| `ControllerHistory.LaunchesApartOrCleared` | core/controller/controller.go:236-320 | any two launches of a stage are at least inflightTimeout apart or a clear lies between them |
| `ControllerHistory.DesiredByRoute` | core/controller/controller.go:216-285 | apart from teardown, a stage's desired state becomes the target of the action's route exactly when that route names the stage and its prerequisite holds |
| `ControllerHistory.HandleKeepsValid` | core/controller/controller.go:216-348 | every handler keeps path and stage states valid |
| `ControllerHistory.RunKeepsShapeAndValidity` | core/controller/controller.go:216-348 | over any run the key sets stay fixed and all states stay valid |
| `ControllerHistory.RejectedChangesNothing` | core/controller/controller.go:216-285 | a handler that replies with an error changes no stage and no listener, no path but the one a path event reports, and calls nobody |
| `ControllerHistory.UntoldMeansUnchanged` | core/controller/controller.go:236-285 | an action that changes a stage's status calls exactly the registered listeners, in order |
| `ControllerHistory.PathEventToldIff` | core/controller/controller.go:223-285 | a path event calls listeners exactly when there are any, the report is accepted, and its route asks for a state the stage is not wanted in and may be given |
| `ControllerHistory.PathViewStaleIff` | core/controller/controller.go:223-285 | with listeners registered, a path event changes the paths and tells nobody exactly when it is new and accepted and has no route, or the stage is already wanted so, or the prerequisite fails |
| `ControllerHistory.PathsByReports` | core/controller/controller.go:223-234 | over every log each path has the last valid status reported for it |
| `ControllerHistory.ViewChangesUnannounced` | core/controller/controller.go:223-285 | since a listener was last called the paths have changed only if such an event came |
| `ControllerHistory.BacklogShrinks` | core/controller/controller.go:236-320 | while nothing is commanded, desired states stay and the set of unconverged stages only shrinks |
| `ControllerHistory.Converges` | core/controller/controller.go:236-320 | when every stage has an overdue pass and every launch is answered by its event, no stage is left unconverged |
| `ControllerHistory.ConvergedLaunchesNothing` | core/controller/controller.go:287-320 | from a converged state no pass launches anything |
| `ControllerWiring.SeedIsValid` | core/controller/main.go:187-233 | both wirings are valid seeds with an operation for every state |
| `ControllerWiring.DesiredStep` | core/controller/main.go:187-233 | the exact next desired state of every stage for every action, in both wirings |
| `ControllerWiring.NormalizeFollowsIngress` | core/controller/main.go:187-233 | over every run before teardown, normalize is wanted running exactly if ingress0's last ready or not-ready report was ready |
| `ControllerWiring.PathFollowsReports` | core/controller/main.go:187-233 | over every run the stored status of ingress0 is its last valid report |
| `ControllerWiring.EgressStartsOnlyWhenReady` | core/controller/main.go:192-214 | egress starts to be wanted only by the start command while ingress0 is ready |
| `ControllerWiring.UnroutedStagesStay` | core/controller/main.go:187-233 | a stage no route reaches keeps its seeded desired state over every run |
| `ControllerWiring.PathViewCanBeStale` | core/controller/main.go:187-233 | in the real wiring a report on a path without a route changes the path view and tells nobody, an input for ControllerHistory.PathViewStaleIff |
| `ControllerConcurrency.RunsKeepInv` | core/controller/controller.go:178-320 | every interleaving of submitters, ticker, operations and clients keeps the invariants the results below rest on |
| `ControllerConcurrency.SubmitIsLinearizable` | core/controller/controller.go:182-210 | a returned Submit was handled by exactly one entry of the log, between its call and its return, with that handler's reply in the sequential run |
| `ControllerConcurrency.StateIsSequential` | core/controller/controller.go:178-214 | between actions the state is the sequential run of the messages taken from the channel, in sending order, none lost |
| `ControllerConcurrency.NoReplyIsLost` | core/controller/controller.go:182-186 | whoever sent the action being handled still waits for its reply |
| `ControllerConcurrency.WaitGroupCountsLaunches` | core/controller/controller.go:287-320 | at every moment the wait group is the number of launched operations less the finished ones |
| `ControllerConcurrency.ConcurrentLaunchesApart` | core/controller/controller.go:287-320 | the launch spacing holds for the log of every concurrent run |
| `ControllerConcurrency.SelectSound` | core/controller/main.go:264-303 | one select of the listener keeps the client's record in order; the second offer never finds the slot full |
| `ControllerConcurrency.ClientSeesInOrder` | core/controller/main.go:264-303 | what a client received, followed by its slot, is an in-order part of what was published to it |
| `ControllerConcurrency.ClientIsUpToDate` | core/controller/main.go:264-303 | between actions the last thing a registered client has received or holds in its slot was the last published, and shows the current stage statuses |
| `ControllerPathView.RunsInform` | core/controller/main.go:264-303 | in every concurrent run each registered client was last told of the state at a known place of the log and has not been called since |
| `ControllerPathView.ClientPathView` | core/controller/main.go:264-303 | between actions the paths a client was last told of differ from the current ones exactly by the reports since then, and only if one of those was unannounced |
| `ControllerObject.NoErrorIsValid` | core/controller/controller.go:105-176 | a configuration without any reported error is exactly a valid one |
| `ControllerObject.CheckConfig` | core/controller/controller.go:105-176 | the errors found are exactly those the configuration has |
| `ControllerObject.CheckPaths` | core/controller/controller.go:120-124 | the errors of the seeded paths, all of them and no others |
| `ControllerObject.CheckStages` | core/controller/controller.go:126-136 | the errors of the seeded stages, all of them and no others |
| `ControllerObject.CheckPathRoutes` | core/controller/controller.go:138-158 | the errors of the path routes, all of them and no others |
| `ControllerObject.CheckCommandRoutes` | core/controller/controller.go:147-158 | the errors of the command routes, all of them and no others |
| `ControllerObject.Controller.constructor` | core/controller/controller.go:105-176 | the new object holds the seed, no launches and no notifications |
| `ControllerObject.Controller.Status` | core/controller/controller.go:322-327 | the snapshot is that of the current paths and stages |
| `ControllerObject.Controller.NotifyListeners` | core/controller/controller.go:263-267 | each listener is called once, in order, with the current snapshot |
| `ControllerObject.Controller.ApplyDesiredStageTarget` | core/controller/controller.go:269-285 | the object does in place what the target's specification does to the state, notifications included |
| `ControllerObject.Controller.OnControl` | core/controller/controller.go:216-221 | the object refines the control handler |
| `ControllerObject.Controller.OnPathEvent` | core/controller/controller.go:223-234 | the object refines the path event handler |
| `ControllerObject.Controller.OnStageEvent` | core/controller/controller.go:236-248 | the object refines the stage event handler |
| `ControllerObject.Controller.OnAddListener` | core/controller/controller.go:250-254 | the object refines the add-listener handler |
| `ControllerObject.Controller.OnRemoveListener` | core/controller/controller.go:256-261 | the object refines the remove-listener handler |
| `ControllerObject.Controller.OnClear` | core/controller/controller.go:304-312 | the object refines the clear of an in-flight marker |
| `ControllerObject.Controller.ReconcileOne` | core/controller/controller.go:287-320 | one stage of a pass: it launches exactly when the plan says so and marks the stage |
| `ControllerObject.Controller.OnReconcile` | core/controller/controller.go:287-314 | a pass visits every stage once, in any order, and launches one operation per stage that needs it |
| `ControllerObject.Controller.OnTeardown` | core/controller/controller.go:331-348 | the object refines teardown |
| `StageOps.GoDeleteTask` | core/controller/container_factory.go:201-240 | whatever containerd answers, the task is waited on before it is signalled, a task that may still run is deleted only by force, nothing is created, and success leaves no task |
| `StageOps.GoStop` | core/controller/container_factory.go:177-247 | every call keeps the rules: a container is deleted only once no task is left, a task that may still run only by force, a task is signalled only after its exit was subscribed to, nothing is created; success leaves neither task nor container |
| `StageOps.GoStart` | core/controller/container_factory.go:249-263 | it stops first, then creates one container, one task and starts it, where nothing was left, stopping at the first failure; success leaves exactly that |
| `StageOps.JoinWaiter` | core/controller/c/main.c:1200-1209 | the waiter reports an exit only if the task is not running and a missing task only if there is none |
| `StageOps.CDelete` | core/controller/c/main.c:1320-1363 | the end of the stop: task, gone already or not, then container, unless superseded; at most one call changes something after a newer operation took over |
| `StageOps.CReap` | core/controller/c/main.c:1294-1363 | once supersede is seen nothing is changed any more, at most one change comes after a newer operation took over, and until then the stop rules hold; unsuperseded success leaves neither task nor container |
| `StageOps.CSignal` | core/controller/c/main.c:1301-1318 | the signal and the join: at most the signal comes after a newer operation took over, and what the waiter reports holds while none has |
| `StageOps.CStopTask` | core/controller/c/main.c:1258-1364 | the stop of a container that is there, with a missing task or a failing waiter thread |
| `StageOps.CStop` | core/controller/c/main.c:1211-1364 | while it owns the stage a container is deleted only without a task and an unforced deletion never hits a running task; after it has seen supersede it changes nothing, and before that at most one thing of the newer operation; unsuperseded success leaves neither task nor container |
| `StageOps.AtMostOneLateChange` | core/controller/c/main.c:1211-1513 | no C operation changes two things after a newer one has taken over |
| `StageOps.CCreate` | core/controller/c/main.c:1388-1513 | the creating half changes nothing after it has seen supersede; unsuperseded success leaves a started task |
| `StageOps.CStart` | core/controller/c/main.c:1388-1513 | whoever of start and its nested stop sees supersede, nothing is changed after it, and together they change at most one thing too late, also when the deadline passes in between; unsuperseded success leaves one container with a started task |
| `Dependencies.KeyIsUnambiguous` | tools/check-deps/common/types.go:183-208 | two identities without the separator byte in the first four fields have different keys |
| `Dependencies.KeyNamesOneIdentity` | tools/check-deps/common/types.go:183-208 | a cache key belongs to one identity only, exactly when none of its five fields holds the separator byte |
| `Dependencies.MovedCollides` | tools/check-deps/common/types.go:183-208 | an identity with a separator byte in any field has the same key as another one |
| `Dependencies.FirstsAreFirst` | tools/check-deps/extract.go:24-36 | every kept dependency is the first of its identity |
| `Dependencies.FirstsAreDistinct` | tools/check-deps/extract.go:24-36 | the kept dependencies have distinct identities, and the same set of them as the input |
| `Dependencies.Dedupe` | tools/check-deps/extract.go:24-36 | the loop returns the first occurrences, in order |
| `ResolvePool.MatchResolver` | tools/check-deps/resolve.go:113-120 | the first matching entry, and none exactly when no entry matches |
| `ResolvePool.CacheGuard.constructor` | tools/check-deps/resolve.go:156-161 | a missing map counts as an empty one and nothing is changed yet |
| `ResolvePool.CacheGuard.Peek` | tools/check-deps/resolve.go:171-187 | the answer without a fetch, or none, as a function of the entries under the lock |
| `ResolvePool.CacheGuard.Commit` | tools/check-deps/resolve.go:197-217 | the new entries and flag; without a change the entries are as they were |
| `ResolvePool.CacheGuard.ResolveJob` | tools/check-deps/resolve.go:222-229 | peek, fetch and commit of one job are one step of the sequential loop |
| `ResolvePool.InOrderIsClosedForm` | tools/check-deps/resolve.go:283-320 | the sequential loop leaves under each key what its dependency alone decides |
| `ResolvePool.OwnershipKept` | tools/check-deps/resolve.go:283-310 | no two workers hold the same job and a held job's slot is empty, after every step |
| `ResolvePool.NothingLost` | tools/check-deps/resolve.go:283-310 | a dependency handed out is held by a worker or has its result, after every step |
| `ResolvePool.InvKept` | tools/check-deps/resolve.go:147-310 | every step of the feeder or a worker keeps the pool's invariant |
| `ResolvePool.EveryScheduleIsSequential` | tools/check-deps/resolve.go:147-320 | every schedule of any number of workers ends with the records and the cache of the sequential loop |
| `ResolvePool.DedupedPoolIsSequential` | tools/check-deps/resolve.go:147-320 | the same for deduplicated dependencies without the separator byte in their identities |
| `ResolvePool.SlotsFilledOnce` | tools/check-deps/resolve.go:283-310 | a step that changes a result slot fills an empty one; a filled slot never changes |
| `ResolvePool.CacheAfterRun` | tools/check-deps/resolve.go:189-217 | after any schedule a failed fetch leaves no entry (a fresh one evicts), a successful one leaves what was fetched, other keys are untouched, and an unset flag means the whole map is |
| `ResolvePool.CachedRunAgrees` | tools/check-deps/resolve.go:163-229 | a fresh run followed by a cached one against the same upstream gives the same records and the same cache |
| `ResolvePool.PoolTerminates` | tools/check-deps/resolve.go:283-310 | no run is longer than five steps per dependency, and it is stuck exactly when it is finished or has no worker for a dependency that needs one |
| `Decimals.CompareBigIntIsNumeric` | tools/check-deps/utilities/semver.go:132-149 | compareBigInt is the sign of the difference of the unbounded decimal values |
| `Versions.LeadingDigits` | tools/check-deps/utilities/utilities.go:50-56 | the longest prefix of digits |
| `Versions.LeadingLetters` | tools/check-deps/utilities/semver.go:122-130 | the longest prefix of letters |
| `Versions.StripTagPrefix` | tools/check-deps/utilities/utilities.go:22-29 | what is left behind the longest prefix without digits |
| `Versions.IsAllDigits` | tools/check-deps/utilities/utilities.go:11-20 | true exactly for non-empty digit strings |
| `Versions.CompareChunks` | tools/check-deps/utilities/semver.go:37-80 | the loop computes the lexicographic order of the token keys, on all strings |
| `Versions.ComparePrereleaseIdent` | tools/check-deps/utilities/semver.go:103-120 | numeric identifiers by value, below the others, which compare by chunks |
| `Versions.ComparePrerelease` | tools/check-deps/utilities/semver.go:82-101 | identifier by identifier, then the shorter first |
| `Versions.CompareSemver` | tools/check-deps/utilities/semver.go:15-35 | cores by chunks, then a release above its prereleases, then the prereleases |
| `Versions.ChunkOrderIsTotalPreorder` | tools/check-deps/utilities/semver.go:37-80 | CompareChunks is a total preorder and calls two strings equal exactly when their keys are |
| `Versions.IdentOrderIsTotalPreorder` | tools/check-deps/utilities/semver.go:103-120 | the identifier order is a total preorder |
| `Versions.PrereleaseOrderIsTotalPreorder` | tools/check-deps/utilities/semver.go:82-101 | the prerelease order is a total preorder |
| `Versions.SemverOrderIsTotalPreorder` | tools/check-deps/utilities/semver.go:15-35 | CompareSemver is a total preorder on all strings |
| `IdentAgreement.OrdersAgreeIff` | tools/check-deps/utilities/semver.go:37-80 | on words of letters, digits and hyphens the chunk order is the ASCII order exactly when the first difference says so: no number there, numbers that decide alike, or a digit behind a letter |
| `IdentAgreement.IdentifiersAgreeIff` | tools/check-deps/utilities/semver.go:103-120 | the same for the comparison of two alphanumeric prerelease identifiers and section 11 of semver.org 2.0.0 |
| `IdentAgreement.NonDigitsAgree` | tools/check-deps/utilities/semver.go:37-80 | where neither differing character is a digit the orders agree |
| `IdentAgreement.EqualLengthNumbersAgree` | tools/check-deps/utilities/semver.go:37-80 | where digits differ in numbers of the same length the orders agree |
| `IdentAgreement.DigitAgainstLetter` | tools/check-deps/utilities/semver.go:37-80 | a digit against a letter agrees right behind a letter, and elsewhere not if the digits count |
| `IdentAgreement.ZerosTie` | tools/check-deps/utilities/semver.go:37-80 | zeros of different length behind a word tie, where ASCII puts the shorter first |
| `Semver11.SplitWritten` | tools/check-deps/utilities/utilities.go:65-74 | a written release splits into its core and its prerelease, whatever its tag prefix and build metadata |
| `Semver11.PreOrdersAgreeIff` | tools/check-deps/utilities/semver.go:82-120 | two prereleases compare as section 11 of semver.org 2.0.0 says, exactly when the first identifiers that differ agree, or tie and the later ones decide alike |
| `Semver11.SemverOrderIsPrecedence` | tools/check-deps/utilities/semver.go:15-149 | CompareSemver is the precedence of section 11 of semver.org 2.0.0 exactly when the cores decide, one is no prerelease, or the prereleases agree |
| `Semver11.NumberedWordOrder` | tools/check-deps/utilities/semver.go:37-80 | a word followed by a number compares by the number |
| `Semver11.DepartsOnMixedIdentifiers` | tools/check-deps/utilities/semver.go:103-120 | so r10 is above r9, where section 11 of semver.org 2.0.0 puts it below |
| `VersionChoice.LatestOf` | tools/check-deps/resolverimpl/scrapers.go:32-43 | a listed version, the first of the greatest; none exactly for an empty list |
| `VersionChoice.EmptyIsLeast` | tools/check-deps/resolverimpl/bcr.go:30-47 | the empty sentinel is below every version |
| `VersionChoice.LatestNonYanked` | tools/check-deps/resolverimpl/bcr.go:30-47 | a listed, not yanked version that no other such version exceeds; none exactly when all such versions are empty |
| `VersionChoice.BreakingBumpIsUpgrade` | tools/check-deps/classify.go:132-160 | a reported breaking bump is an upgrade under CompareSemver exactly when the text before the first dot of the current core does not sort above that of the latest |
| `VersionChoice.PlainBreakingBumpIsUpgrade` | tools/check-deps/classify.go:132-160 | with plain majors every reported breaking bump is an upgrade |
| `VersionChoice.BreakingBumpCanBeDowngrade` | tools/check-deps/classify.go:132-160 | a reported breaking bump that CompareSemver calls a downgrade |
| `IgnoreRules.IsIgnoredOn` | tools/check-deps/ignore.go:143-166 | true exactly when a live rule matches the id and the file |
| `IgnoreRules.CoversFile` | tools/check-deps/ignore.go:174-191 | true exactly when a live rule is scoped to the file |
| `IgnoreRules.IgnoredOnlyExpires` | tools/check-deps/ignore.go:131-166 | what is ignored on a day was ignored on every earlier day |
| `Findings.MostSevere` | tools/check-deps/output.go:411-431 | the first of the members that none of the others outranks |
| `Findings.MinTier` | tools/check-deps/output.go:457-465 | the least normalized tier of the members |
| `Findings.AllIgnored` | tools/check-deps/output.go:469-476 | true exactly when every member is ignored |
| `Findings.CollectPins` | tools/check-deps/output.go:478-499 | exactly the members' declarations, each once, ordered by file and version |
| `Findings.PinsAreUnique` | tools/check-deps/output.go:478-499 | the list of pins depends only on which declarations there are |
| `Findings.MixedVersion` | tools/check-deps/output.go:526-533 | true exactly when two members pin different versions |
| `Findings.MixedArch` | tools/check-deps/output.go:537-543 | true exactly when two members have different architecture labels |
| `Findings.MergeFindings` | tools/check-deps/output.go:397-406 | the worst member under the group's name, with the lowest tier, every pin, the drift noted, ignored only if all are |
| `Findings.MergeIsWorst` | tools/check-deps/output.go:392-431 | a merged finding is at least as severe as every member, carries its pin, and is ignored only with it |
| `Findings.GroupsPartition` | tools/check-deps/output.go:363-385 | grouping neither loses nor repeats a finding |
| `Findings.GroupFindings` | tools/check-deps/output.go:363-373 | the keys in order of first occurrence, and for each its members in order |
| `Findings.CollapseFindings` | tools/check-deps/output.go:363-385 | one finding per key: a lone member unchanged, several merged |
| `Report.Route` | tools/check-deps/output.go:248-268 | each record joins the list of its section and no other, with an unknowns entry if it is an unknown finding |
| `Report.BuildReport` | tools/check-deps/output.go:242-296 | the report's lists and counts as functions of the records, the rules and the day, each list a permutation ordered by its key |
| `Report.TallyCounts` | tools/check-deps/output.go:303-329 | every finding is in one tier; the status tallies cover all findings exactly when all statuses are known ones |
| `Report.SectionsPartition` | tools/check-deps/output.go:152-160 | every record is in exactly one section |
| `Report.ReportConserves` | tools/check-deps/output.go:242-296 | the total is the three tiers plus inventory plus integrity, the sections add up to the records, and grouping conserves the findings |
| `Report.RecordIsReported` | tools/check-deps/output.go:242-431 | every reviewable record has a finding of its key that is at least as severe, carries its pin, is ignored only with it, and is in the report exactly if it is not ok or ok ones are asked for |
| `Report.FindingsAreNotIntegrity` | tools/check-deps/output.go:152-160 | no finding has the integrity status |
| `Report.StrictFailure` | tools/check-deps/main.go:488-524 | the verdict with its exact count of open unknowns or undeterminable pins |
| `Report.StrictAgreesWithReport` | tools/check-deps/main.go:478-524 | under strict the run passes exactly when every unknown in the report is ignored |
| `SortKeys.SortBy` | tools/check-deps/output.go:561-607 | the same elements in the order of their keys |
| `SortKeys.SortIsDeterminedIff` | tools/check-deps/output.go:573-607 | the order by key fixes the list exactly when no two different entries share their key |
| `Utf8.TextRoundTrip` | tools/stream-mode/obs-stats.py:82-112 | every text reads back from its octets |
| `Utf8.OctetsRoundTrip` | tools/stream-mode/obs-stats.py:82-112 | octets that can be read are the one writing of what was read (section 4 of RFC 3629) |
| `Utf8.DecodableIff` | tools/stream-mode/obs-stats.py:107-112 | octets can be read exactly if they are the writing of some text |
| `WebSocket.MaskedTwice` | tools/stream-mode/obs-stats.py:79-98 | masking twice gives the payload back |
| `WebSocket.LengthRoundTrip` | tools/stream-mode/obs-stats.py:73-94 | all three length forms read back |
| `WebSocket.FrameRoundTrip` | tools/stream-mode/obs-stats.py:69-98 | a frame of any length, masked or not, reads back with the bytes behind it left over (section 5.2 of RFC 6455) |
| `WebSocket.Client.ReceiveChunk` | tools/stream-mode/obs-stats.py:60-67 | the next chunk, or nothing once the server has closed |
| `WebSocket.Client.Read` | tools/stream-mode/obs-stats.py:60-67 | exactly the next n bytes of the stream, however it was cut into chunks, or failure when it is too short |
| `WebSocket.Client.SendFrame` | tools/stream-mode/obs-stats.py:69-80 | the bytes sent are one final frame with the opcode, the payload and some mask |
| `WebSocket.Client.SendText` | tools/stream-mode/obs-stats.py:82-83 | one text frame with the octets of the message |
| `WebSocket.Client.ReadFrame` | tools/stream-mode/obs-stats.py:89-98 | the next frame of the stream, whatever the chunks |
| `WebSocket.Client.ReceiveText` | tools/stream-mode/obs-stats.py:85-114 | result, answers and remaining stream are a function of the bytes alone, octets that are no UTF-8 included |
| `WebSocket.FragmentedMessage` | tools/stream-mode/obs-stats.py:85-114 | a message in any number of fragments with pings, pongs and reserved frames between them gives the text of the joined fragments, one pong per ping, and leaves the rest (sections 5.4 and 5.5 of RFC 6455) |
| `WebSocket.TextArrivesIff` | tools/stream-mode/obs-stats.py:82-114 | a text is received exactly when the fragments together are its UTF-8 octets, wherever they were cut |
| `WebSocket.InterruptedMessage` | tools/stream-mode/obs-stats.py:99-113 | a close is answered with its status code and ends the receive, a binary frame ends it with its error |
| `WebSocket.CutOffMessage` | tools/stream-mode/obs-stats.py:60-67 | a stream that ends before a frame is complete loses the connection |
| `WebSocket.SentReadsBack` | tools/stream-mode/obs-stats.py:69-80 | everything the client sent reads back as exactly its frames, in order |
| `DnsWire.EncodeName` | tools/ddns/dns_wire.c:23-44 | succeeds exactly when the name can be encoded and fits, writes it at its place and nothing before it |
| `DnsWire.ReadEncoded` | tools/ddns/dns_wire.c:61-87 | reading an encoded name gives its labels in lower case, or fails exactly beyond the parser's length limit |
| `DnsWire.AppendLabel` | tools/ddns/dns_wire.c:75-80 | a label is appended in lower case, after a dot if there is a name before it |
| `DnsWire.ParseQuery` | tools/ddns/dns_wire.c:46-99 | the parsed query, or that the packet is malformed, or that its question overruns the record |
| `DnsWire.QueryRoundTrip` | tools/ddns/dns_wire.c:23-99 | a query for any encodable name is read back without leaving the record exactly when the encoded name has at most 256 octets; at 257 the question overruns its field, beyond that the query is refused |
| `DnsWire.RecordFieldsFit` | tools/ddns/dns_wire.h:48-56 | whatever the packet, a parsed name fits the name field, and the question overruns its 260 octets exactly at names of 255 characters, by one octet |
| `DnsWire.FourLongLabelsOverrun` | tools/ddns/dns_wire.c:70-98 | four labels of 63 octets are such a name |
| `DnsWire.LowerCaseQueryRecovered` | tools/ddns/dns_wire.c:23-99 | within the 255 octets of section 2.3.4 of RFC 1035 a lower-case name, its type, class and id are recovered |
| `DnsResponse.AppendRdata` | tools/ddns/dns_wire.c:123-153 | the data length and the data, or failure exactly when they cannot be written or do not fit |
| `DnsResponse.AppendAnswer` | tools/ddns/dns_wire.c:103-156 | one record, or failure exactly when it cannot be written or does not fit |
| `DnsResponse.AppendAnswers` | tools/ddns/dns_wire.c:190-194 | all records, or failure exactly when one cannot be written or they do not fit |
| `DnsResponse.BuildResponse` | tools/ddns/dns_wire.c:158-199 | succeeds exactly when every answer can be written and the whole fits, and then returns its length and leaves the bytes behind it alone |
| `DnsResponse.LabelsReadBack` | tools/ddns/dns_wire.c:23-44 | an encoded name reads back as its labels |
| `DnsResponse.RecordReadBack` | tools/ddns/dns_wire.c:103-156 | a record reads back with its owner, type, class, TTL and a length that spans its data (section 3.2.1 of RFC 1035) |
| `DnsResponse.QuestionReadsBack` | tools/ddns/dns_wire.c:61-97 | the question kept by the parser is a name and four octets |
| `DnsResponse.ResponseReadsBack` | tools/ddns/dns_wire.c:158-199 | the response to any accepted query, up to 65535 octets, reads back as its id, its question verbatim and exactly the given records (section 4.1 of RFC 1035) |
| `DnsResponse.ResponseFlagBits` | tools/ddns/dns_wire.c:171-177 | QR and AA set, the opcode echoed, RA as asked, the low four bits of the code |
| `DurationText.PutFraction` | core/controller/c/main.c:286-302 | the low digits without trailing zeros behind a point, in front of what is there, and the remaining number |
| `DurationText.PutInt` | core/controller/c/main.c:306-316 | the decimal digits in front of what is there |
| `DurationText.PutSmall` | core/controller/c/main.c:342-359 | a duration below a second with its unit |
| `DurationText.PutMinutes` | core/controller/c/main.c:365-376 | the minutes and hours, as far as there are any |
| `DurationText.PutClock` | core/controller/c/main.c:360-377 | hours, minutes and seconds with their fraction |
| `DurationText.PrintDuration` | core/controller/c/main.c:321-387 | the text if it fits the buffer with its terminator and 0s otherwise, without leaving the 48 bytes |
| `DurationText.TextFits` | core/controller/c/main.c:321-387 | no duration takes more than 25 bytes |
| `Durations.ReadWhole` | core/controller/c/main.c:204-208 | the digits before the point, at most two roundings per digit from their value |
| `Durations.ReadPlaces` | core/controller/c/main.c:209-217 | the digits behind the point, at most three roundings per digit from the value |
| `Durations.ReadNumber` | core/controller/c/main.c:200-220 | the length of the number in front of a unit, and its value up to three roundings per digit |
| `Durations.ParseDuration` | core/controller/c/main.c:182-265 | in double precision, with every operation rounded in any way within half a unit in the last place: refused for its form exactly if the grammar refuses it, otherwise the sum of the amounts up to three roundings per character |
| `Durations.ParsedText` | core/controller/c/main.c:182-387 | what the printed text of any number of milliseconds stands for, including when it wraps around or is out of range |
| `Durations.TextStandsIff` | core/controller/c/main.c:182-387 | the text stands for the duration exactly when its nanoseconds fit 64 bits |
| `Durations.ReadText` | core/controller/c/main.c:182-387 | what the parser reads from it in double precision, within one part in 48 million million |
| `Durations.BindsNearest` | core/controller/c/main.c:267-281 | anything within half a millisecond binds to that millisecond |
| `Durations.BoundMs` | core/controller/c/main.c:267-281 | the nearest millisecond, or none exactly where the 64-bit arithmetic overflows |
| `Durations.DurationRoundTrip` | core/controller/c/main.c:182-387 | printing, reading in double precision and binding gives the milliseconds back exactly when their nanoseconds fit 64 bits, whatever the roundings |
| `Templates.IsValidName` | core/controller/c/envfile.c:113-123 | true exactly for a name start followed by name characters |
| `Templates.TokensCoverTemplate` | core/controller/c/envfile.c:205-286 | the tokens use up every byte of the template once, in order |
| `Templates.TokenNamesAreValid` | core/controller/c/envfile.c:205-286 | every reference is a valid name that fits the name buffer |
| `Templates.Expand` | core/controller/c/envfile.c:205-286 | the scanning loop writes the expansion of the tokens, for every template and environment |
| `Templates.QuotedText` | core/controller/c/envfile.c:205-231 | quoted text stands for itself whatever follows it |
| `Templates.Reference` | core/controller/c/envfile.c:232-252 | a braced name is replaced by its value whatever follows it |
| `Templates.BareReference` | core/controller/c/envfile.c:260-280 | a bare name is replaced by its value up to the first character that is no name character |
| `Templates.PlainText` | core/controller/c/envfile.c:205-231 | text without a dollar sign stands for itself whatever follows it |
| `Templates.BracesStay` | core/controller/c/envfile.c:232-259 | braces around anything but a name that fits stay, body and all, if the body holds no dollar sign |
| `Templates.OpeningStays` | core/controller/c/envfile.c:232-259 | in any case their opening stays, and the body is expanded in its turn |
| `Templates.LoneDollar` | core/controller/c/envfile.c:216-286 | a dollar sign before nothing special stays as it is |
| `Templates.TemplateMeaning` | core/controller/c/envfile.c:205-286 | a template put together from quoted text and references expands to the text with the references' values |
| `Templates.DoublingQuotes` | core/controller/c/envfile.c:205-286 | doubling every dollar sign of any text gives back the text in every environment |
| `KnownHosts.RowsRoundTrip` | deploy/aws/known_hosts.py:198-237 | writing rows and reading them is the identity exactly for non-empty fields without white space |
| `KnownHosts.ReadIsWellFormed` | deploy/aws/known_hosts.py:198-209 | whatever the file holds, the rows read have two such fields |
| `KnownHosts.Store.ForgetUnlocked` | deploy/aws/known_hosts.py:97-107 | the host's keys are removed when ssh-keygen is there, and the result says whether it was |
| `KnownHosts.Store.ForgetHost` | deploy/aws/known_hosts.py:110-124 | the same, without touching the map |
| `KnownHosts.Store.Bind` | deploy/aws/known_hosts.py:240-262 | the map file and the known keys after a binding, empty arguments included |
| `KnownHosts.Store.ForgetInstance` | deploy/aws/known_hosts.py:265-281 | the map and the known keys after forgetting an instance, a missing map included |
| `KnownHosts.BindKeepsUnique` | deploy/aws/known_hosts.py:240-262 | one row per host stays one row per host, and the new binding is there |
| `KnownHosts.DroppedArePruned` | deploy/aws/known_hosts.py:240-262 | a row is gone exactly when it belonged to the replaced instance, and exactly then its host's keys are forgotten |
| `KnownHosts.BindKeepsHealthyIff` | deploy/aws/known_hosts.py:240-262 | a binding keeps the store healthy exactly if ssh-keygen is there or no key must go |
| `KnownHosts.ForgetKeepsHealthyIff` | deploy/aws/known_hosts.py:265-281 | so does forgetting an instance |
| `KnownHosts.StepKeepsHealthyIff` | deploy/aws/known_hosts.py:240-281 | every call keeps one row per host and only keys of bound instances, exactly when the keys it must remove can go and a first connection is answered by the bound instance |
| `KnownHosts.RunsStayHealthyIff` | deploy/aws/known_hosts.py:240-281 | over every run of binds, forgets and connections, with whatever answers, the store stays healthy exactly when every call meets that condition |
| `KnownHosts.UnboundConnectPoisons` | deploy/aws/setup_strimserver:86-103 | connecting without a binding, or while the host is bound to an earlier instance, stores a foreign key |
| `KnownHosts.ForgetBindConnectHeals` | deploy/aws/setup_strimserver:86-103 | from any store, forgetting, binding and connecting ends with the right key, exactly if ssh-keygen is there or no other key was |
| `EventLog.ChainConserves` | tools/stream-mode/analyze.py:1113-1123 | collapsing one mechanism keeps its number of lines |
| `EventLog.ChainKeepsApart` | tools/stream-mode/analyze.py:1103-1123 | events of a mechanism that must not be collapsed keep one row each |
| `EventLog.SortedSorts` | tools/stream-mode/analyze.py:1114-1114 | a permutation ordered by start time, in which events of the same time keep their order |
| `EventLog.Collapse` | tools/stream-mode/analyze.py:1108-1134 | the rows of each mechanism are those of collapsing it alone, in their order, each mechanism keeps its total number of lines, and the table is in causal order |
| `EventLog.RowIs` | tools/stream-mode/analyze.py:1117-1122 | a row is its first event with all lines counted and its end at the start of the last event |
| `EventLog.JoinsRowIff` | tools/stream-mode/analyze.py:1115-1118 | an event joins a row exactly if it may be merged, has its severity and route, and comes within the window |
| `EventLog.ChainIsTheCut` | tools/stream-mode/analyze.py:1113-1123 | the rows of a mechanism are the one way to cut its events exactly where they do not join |
| `Timeline.GroupEpisodes` | tools/stream-mode/analyze.py:1137-1145 | the groups are the sorted events, cut exactly where the gap is above the threshold |
| `Timeline.EpisodesMean` | tools/stream-mode/analyze.py:1137-1145 | inside an episode every gap is within the threshold, before every later episode it is not |
| `Timeline.EpisodesAreUnique` | tools/stream-mode/analyze.py:1137-1145 | there is only one such grouping |
| `RowCap.SampleIsDistinct` | tools/stream-mode/analyze.py:1157-1160 | the sampled weak rows are distinct rows of the list |
| `RowCap.ChosenIsRight` | tools/stream-mode/analyze.py:1154-1161 | the chosen rows are distinct rows of the mechanism, hold every strong one, and are as many as the cap allows |
| `RowCap.ByMechanism` | tools/stream-mode/analyze.py:1151-1153 | the places of each mechanism, in order |
| `RowCap.ChooseRows` | tools/stream-mode/analyze.py:1151-1161 | the kept places, and for each mechanism over the cap how many it loses |
| `RowCap.CapRows` | tools/stream-mode/analyze.py:1148-1162 | the kept rows in their order: every strong row and every row within the cap, the exact number per mechanism, and the exact number omitted |

## Left out

- Containerd, gRPC, HTTP, curl, c-ares, ssh and the file system themselves: only the outcomes of calls to them are modelled.
- Go shutdown (Close and what may still run around it), the nil checks of NewController, and the texts of errors and log lines.
- The C controller's state machine outside its stage operations, and the C entry points, HTTP service and plugins.
- Extractors and resolvers that scrape HTML, JSON and lock files, the console rendering of the report and its JSON.
- The analyser's log readers and its row texts.
- Age limits of the cache file: it is loaded whole or not at all and restamped whenever it is saved.
- Batch resolvers, which run one after the other behind the pool and append their records.
- ControllerObject.Controller: stages are values in a map, so aliasing of stage pointers between the caller and the controller is not captured.
- ControllerConcurrency.SubmitIsLinearizable: says that a returned call was handled in its interval, not that every call returns; a fair scheduler is not modelled.
- StageOps.GoStop: no other operation works on the stage meanwhile, and the grace period and the contexts are arbitrary outcomes of the wait, without clocks.
- StageOps.CReap: the waiter thread subscribes some time before it is joined, so waiting before signalling is not stated for C.
- StageOps.CStop: operation budgets and a failing thread creation are parameters, not times.
- Semver11.PreOrdersAgreeIff: where identifiers tie that the specification tells apart, the condition compares the later identifiers, because they then decide.
- VersionChoice.LatestOf: the comparison handed in is taken to be a total preorder, as CompareSemver is proved to be.
- ResolvePool.EveryScheduleIsSequential: what an upstream answers is a function of the dependency, so two runs may not see different answers.
- Report.BuildReport: entries with the same key come in any order; the sort of Go is not stable.
- WebSocket.Client: the opening handshake, socket timeouts and errors of sendall are not modelled.
- WebSocket.Client.ReceiveText: the reason of a close is its bytes, without the replacement of octets that are no UTF-8.
- DnsWire.EncodeName: names are any octets but the dot; a C string ends at the first zero octet, so names with one are more than the C can be given.
- DnsWire.ParseQuery: an overrun is a result of its own, because what the C does then is undefined.
- DnsResponse.AppendRdata: the reading of dotted quads by inet_pton is a parameter.
- Durations.ParseDuration: beyond 300 characters only the refusal for form is stated, because tenths may then fall below the normal doubles; at exactly 2^63 ns, where the C conversion is undefined, the value is returned.
- Templates.Expand: reading the template and failing writes to the output file are not modelled.
- KnownHosts.Store: the file lock makes each call one step; its timeout and failing writes are not modelled.
- EventLog.Collapse: rows are values and the last row of a mechanism is named by its place.
- RowCap.CapRows: rows are identified by their place, so the same object twice in the list is two rows, and sample positions are exact quotients.
