# tripgoctl safety model

A Dafny model of the rules that make `tripgoctl` safe to run: which cluster, registry,
Kubernetes object, file or release it may touch, what it must leave alone, and what it leaves
behind when something fails half-way. `dafny verify dfyconfig.toml` checks the whole project.

| modules | part of the system |
|---|---|
| `ClusterState`, `ClusterProtocol`, `ClusterSafety`, `ClusterRuns`, `ClusterLateUse`, `ClusterOutcomes`, `ClusterCleanup` | the operation lock, `cluster start`, `cluster stop`, inspection and environment leases |
| `LabService`, `Workloads`, `LabOperations` | reconciling one lab's Kubernetes objects, waiting for its workloads, and the whole lab operations with their projection and local files |
| `EnvironmentConfig`, `EnvFile` | `environment.toml` validation and the generated `.env` |
| `Streams`, `Utf8`, `Redact`, `ProgressSession` | bounded observation, cleaning and logging of subprocess output |
| `PushService`, `PushRuns` | the Push Service's behaviour record and token bucket |
| `RenderedOutput`, `TopicReconciler`, `ReleasePublisher` | replacing rendered manifests, reconciling topics, publishing releases |
| `Options`, `Ordering`, `Splitting`, `Decimal` | shared vocabulary |

**How failures are modelled.** Every external command (Docker, kind, Kubernetes, GitHub, the
file system) either takes effect or fails, and the choice is arbitrary. A failed command has no
effect, except where the model says otherwise: removing a tree may remove part of it, an upload
may leave its draft, and writing `.env` may report an error after the new file is in place.
Ghost counters (`faults`) count commands that failed of themselves, so contracts can also say
what must happen when none did; in `RenderedOutput` the failing operations are a set given to
the call, so its contracts say exactly which failures lead where.

**The cluster protocol** is a transition system. A process is at a program point of one
operation; one step is one command. `Run` applies any sequence of events: new processes, steps
with success or failure, sudden death of a process (which drops its lock), and, while the lock
is free, arbitrary changes by outsiders. The state file may hold anything. The log of deletions
records the world at the moment of each command. Some theorems hold for every run; those about
the state file and Kubernetes objects hold for every run in which no lease is used after its close (`Disciplined`), and
`ClusterLateUse` shows by runs what happens otherwise.

## Findings

| property that fails | source | exactly when it holds |
|---|---|---|
| A deletion is justified by the state file of its own moment. `SetEnvironmentState` does not look at whether its lease is still open. No caller in the repository uses a lease that way: each defers `Close` or, like `Logs` (internal/lab/service.go:341-370), only reads on after it, so the program's own runs are all `Disciplined` | internal/cluster/service.go:272-295 | `ClusterRuns.HarmlessRunsJustified`: whenever each write through a closed lease that lands under a held lock leaves id and namespaces of the file it overwrites. `ClusterLateUse.LateWriteRun`: for every other such write there is a run in which it makes a deletion unjustified. `EveryDeletionAsLoaded` is what holds in every run |
| After `Write` a complete rendered tree, old or new, is in place where there was one. The deferred removal of the backup also runs after a failed rollback | internal/generator/write.go:47-66 | `RenderedOutput.OutputDirectory.Write`: exactly unless the old tree was set aside and both installing the new tree and putting the old one back failed (`Prepared` and `Loses`). `LosingRun` is such a run; it takes two failing operations (`OneFaultLeavesTree`) |
| A failed `Write` leaves the rendered tree as it was. What fails after the installation does not bring the old tree back | internal/generator/write.go:62-76 | `RenderedOutput.OutputDirectory.Write`: exactly unless the new tree was installed or the old one lost (`Installs`, `Loses`). `LateFailureRun` is a call with one failing operation that reports an error and has replaced the tree |
| Admissions between two rate changes within a span d are at most burst + rps*d. Clock readings are taken before the mutex, and a reading may be decided after a later one | internal/pushservice/service.go:145-203 | `PushRuns.BoundHoldsIff`: for every rate and burst exactly when the readings, in the order of their decisions, move forward by at most d in all; so for nondecreasing ones (`AdmissionsWithinSpan`). `OutOfOrderExceedsBound`: the readings 1, 0, 1, 0, 1 admit five where the bound is four |
| Removing a namespace from the projection removes it. `setMembership` deletes one occurrence | internal/cluster/service.go:618-629 | `ClusterState.SetMembershipDecides`: exactly when the list held it at most once, which every file written by tripgoctl does (`ClusterRuns.SavedStateCanonical`) |

## Model

| member | source | states |
|---|---|---|
| `Ordering.SortedCopiesEqualIffPermutation` | internal/cluster/service.go:423-429 | comparing sorted copies of two lists is exactly comparing them as multisets |
| `Ordering.LeqIsLexicographic` | internal/cluster/service.go:627-627 | the order of the sort is the lexicographic one: a prefix first, else by the first differing character |
| `ClusterState.UsableIff` | internal/cluster/state.go:26-40 | a state file is usable exactly when it decodes to schema 1 with a non-empty cluster id |
| `ClusterState.SetMembershipExact` | internal/cluster/service.go:618-629 | for every list, sorted or not: the target is added once if missing, or one occurrence is taken away, and the result is sorted |
| `ClusterState.SetMembershipDecides` | internal/cluster/service.go:618-629 | no other name is affected; the target is in the result exactly if asked for or held twice before; a duplicate-free list becomes strictly sorted |
| `ClusterState.EnvironmentUpdateExact` | internal/cluster/service.go:270-287 | for every recorded state an update alters only its own namespace and keeps id and versions, and it makes a duplicate-free state canonical |
| `ClusterState.EnvironmentUpdateKeepsListIff` | internal/cluster/service.go:280-281 | the recorded namespaces stay the same multiset exactly when the update says what the file already said |
| `ClusterSafety.CheckKeeps` | internal/cluster/service.go:483-503 | what `verifyStateAndContainers` has established so far holds at each of its steps |
| `ClusterSafety.StartKeeps` | internal/cluster/service.go:123-220 | at every program point of Start, cleanup included, the lock is held and registry and cluster are exactly those this call created |
| `ClusterSafety.StartKeepsFile` | internal/cluster/service.go:123-220 | without late lease use, the state file is as Start found it until Start saves its own |
| `ClusterSafety.StartJustified` | internal/cluster/service.go:519-546 | each deletion by Start hits an orphan registry bearing the id it read or a resource of its own |
| `ClusterSafety.StopKeeps` | internal/cluster/service.go:388-451 | at every program point of Stop, the namespaces it read are the confirmed ones as a multiset and each resource about to be deleted bears the id it read |
| `ClusterSafety.StopJustified` | internal/cluster/service.go:430-446 | each deletion by Stop is justified, resource by resource |
| `ClusterSafety.LeaseKeeps` | internal/cluster/service.go:270-295 | uses of an open lease keep its agreement with markers and label, and with the state file; its Kubernetes changes are authorised |
| `ClusterSafety.OthersLeaveContainers` | internal/cluster/service.go:270-295 | a process without the lock touches no container; the state file and Kubernetes objects only through a closed lease |
| `ClusterSafety.RunKeepsInv` | internal/cluster/service.go:123-451 | the container invariant holds after every sequence of events |
| `ClusterSafety.RunKeepsFileInv` | internal/cluster/service.go:123-451 | the state-file invariant holds after every sequence of events without late lease use |
| `ClusterRuns.EveryDeletionAsLoaded` | internal/cluster/service.go:388-451 | in every run, each deletion was made by the lock holder and hit a resource bearing the id its operation had read from the state file under that very lock, or one created by that same Start; a Stop's deletion had exactly the namespaces it had read confirmed |
| `ClusterRuns.HarmlessRunsJustified` | internal/cluster/service.go:272-287 | in every run whose writes through closed leases, if they land under a held lock, leave id and namespaces of the file they overwrite, every deletion is justified by the state file of its own moment |
| `ClusterRuns.EveryDeletionJustified` | internal/cluster/service.go:123-230 | in every run without late lease use, each cluster or registry deletion was made by the lock holder and hit a resource bearing the id recorded at that moment or one created by that same Start; a Stop's deletion also had exactly the recorded namespaces confirmed |
| `ClusterRuns.EveryDeletionLogged` | internal/cluster/service.go:388-451 | in every reachable state, a process step that removes or replaces a resource adds exactly one truthful log entry, and no other step adds any |
| `ClusterRuns.AtMostOneHolder` | internal/cluster/state.go:78-97 | in every run no two operations hold the lock |
| `ClusterRuns.NobodyFreesAnothersLock` | internal/cluster/state.go:78-97 | while a process holds the lock no other process's step or death, and no outsider, releases it or touches a container; without late lease use nothing changes at all |
| `ClusterRuns.OpenLeaseAgrees` | internal/cluster/service.go:259-334 | while a lease is open, node marker, API marker and registry label carry its id in every run, and the state file says what the lease last read or wrote unless a closed lease was used |
| `ClusterRuns.GenerationCheckNeverFires` | internal/cluster/service.go:272-287 | from an open lease in a run without late use, load and write of an update, with any events of others in between, leave exactly that update of what the lease held |
| `ClusterRuns.SecondCloseIsInert` | internal/cluster/service.go:289-295 | the first close frees the process's own lock; every later close, such as the deferred one of `Logs`, changes nothing, whoever holds the lock |
| `ClusterRuns.EveryPatchAuthorised` | internal/lab/service.go:606-614 | in every run without late use, each patch was made by the lock holder through a lease whose id is the recorded one and that of both cluster markers, on an object that was new or bore the lease's marks |
| `ClusterRuns.PatchAuthorisedIff` | internal/lab/service.go:606-614 | a patch through a lease would be authorised exactly when the lease is open and the object is new or bears its marks |
| `ClusterRuns.AppliesExactly` | internal/lab/service.go:606-614 | a target that is new or bears the lease's marks gets the applied content, whatever others do between reading and patch; with other marks the lease goes on without a patch |
| `ClusterRuns.ForeignObjectsStay` | internal/lab/service.go:525-669 | over any stretch of a run without late use, however processes interleave, fail or die, an object foreign to the cluster stays exactly as it is while the cluster stands |
| `ClusterRuns.SavedStateCanonical` | internal/cluster/service.go:272-287 | if the first file and those of outsiders are canonical (sorted, duplicate-free, running a subset of known), so is every file of the run, late writes included |
| `ClusterRuns.EveryOutcomeHolds` | internal/cluster/service.go:172-230 | a successful Start or Inspect ends with the identities agreeing, an existing cluster untouched; an aborted Start leaves exactly what its cleanup failed to remove; a refused operation has made nothing, and only Stop and an orphan removal take anything away; a successful Stop leaves nothing; the state file ends accordingly unless a closed lease was used |
| `ClusterLateUse.LateWriteRun` | internal/cluster/service.go:272-295 | for every two recorded states and every update there is a run whose one late write lands before a confirmed Stop's deletion, and the deletion is justified exactly when that write is harmless |
| `ClusterLateUse.LateUpdateRun` | internal/cluster/service.go:272-295 | with the cluster still the same, exactly when the update said what the file already said: adding and removing an environment both defeat the confirmation |
| `ClusterLateUse.LateWriteUnderLease` | internal/cluster/service.go:273-285 | for every two states there is a run in which a late write puts the first cluster's id into the file under an open lease on the second |
| `ClusterOutcomes.StepsRunOut` | internal/cluster/service.go:123-220 | every step of an unfinished operation comes closer to its end, so none runs forever |
| `ClusterOutcomes.StartSucceedsIff` | internal/cluster/service.go:123-220 | with every command succeeding, Start succeeds exactly for its own verified cluster, or with no cluster and no registry it cannot prove its own; otherwise it changes nothing |
| `ClusterOutcomes.InspectSucceedsIff` | internal/cluster/service.go:233-257 | with every command succeeding, Inspect reports the id exactly of a cluster whose state file, of this build, marker and labels agree, and changes nothing |
| `ClusterOutcomes.LeaseOpensIff` | internal/cluster/service.go:299-334 | with every command succeeding, a lease opens, holding the lock, exactly for such a cluster whose API bears the id too |
| `ClusterCleanup.FailedStartCleansUp` | internal/cluster/service.go:172-217 | in every run: whichever command of Start fails once its registry is there, if the later ones succeed it ends with neither cluster nor registry and the state file as it was |
| `ClusterCleanup.LeftoversExplained` | internal/cluster/service.go:222-230 | in every run: for whatever an aborted Start leaves over, it has issued the very command that would have removed it, and that command failed |
| `ClusterCleanup.FailureIsFinal` | internal/cluster/service.go:123-451 | in every run: once a needed command of an operation has failed, the operation never succeeds and its lease never opens |
| `ClusterOutcomes.RepeatedStartKeepsEverything` | internal/cluster/service.go:475-503 | a second Start after a successful one returns the same id and changes nothing |
| `ClusterOutcomes.RetryAdmittedIffCleaned` | internal/cluster/service.go:172-230 | in every run, after a Start that failed once its registry was up, a later Start is admitted exactly when both cleanup commands succeeded |
| `ClusterOutcomes.CleanedStartLeavesNothing` | internal/cluster/service.go:172-230 | a cleaned-up attempt leaves no cluster, no registry, and, without late lease use, the state file of before |
| `ClusterOutcomes.StopDeletesExactly` | internal/cluster/service.go:388-451 | what Stop leaves in every situation when commands succeed, including the foreign registry that stays after the owned cluster is gone |
| `Workloads.RoundRecordsTake` | internal/lab/service.go:680-704 | a round records its observations one by one, and nothing from the read that met an expired wait on |
| `Workloads.NotingRemembers` | internal/lab/service.go:689-703 | setting or deleting one note keeps the map equal to the last observations of the whole history |
| `Workloads.PollRound` | internal/lab/service.go:677-737 | a round is ready exactly when every workload was read with all four counts as expected at the observed generation, is interrupted exactly when the wait expired during it, and keeps the map in step with the history |
| `Workloads.SortedNames` | internal/lab/service.go:742-746 | the names are the map's keys, sorted, each once |
| `Workloads.WaitForWorkloads` | internal/lab/service.go:671-755 | succeeds exactly when, in the first uninterrupted round of that kind, every workload was read with desired, updated, ready and available counts all as expected and the observed generation not behind; otherwise names exactly the workloads whose last recorded observation was not that, with the observation |
| `LabService.Api.VerifyOwned` | internal/lab/service.go:645-669 | distinguishes an object that bears all five marks, one that differs in some, an absent and an unreadable one, and fails only if the read failed |
| `LabService.Api.VerifyBundle` | internal/lab/service.go:525-566 | passes only if no existing target differs in any of the five marks and every kind is one of the seven tripgoctl manages |
| `LabService.Api.ApplyManifests` | internal/lab/service.go:568-622 | wherever it fails, every patched object was new or had managed-by tripgoctl, part-of tripgo-local, the two-digit lab, the namespace and the cluster id; others and other managers' fields stay, and success installs every included manifest |
| `LabService.Api.VerifyCheck` | internal/lab/service.go:986-1004 | a further condition of Stop passes exactly if the object exists, is owned and has the managed settings |
| `LabService.Api.Start` | internal/lab/service.go:140-176 | one target that differs in any of the five marks, an unsupported kind or a foreign namespace means no patch at all; with no failing request and none of these it succeeds exactly when the workloads become ready |
| `LabService.Api.Stop` | internal/lab/service.go:218-264 | as Start, needs namespace, every workload, the Redpanda settings and the push image digest in order first, and changes only Deployments and StatefulSets |
| `LabService.Api.Reset` | internal/lab/service.go:283-297 | deletes only an owned namespace and what is inside it, in part if the wait ends early; nothing outside changes, nothing is altered, a foreign namespace stays |
| `LabOperations.Lab.Start` | internal/lab/service.go:121-190 | a foreign `.env`, an unusable output directory or a foreign target stops it before anything changes anywhere; the projection follows readiness, the rendered files follow the projection, `.env` comes last, and success means all of them are in place |
| `LabOperations.Lab.Stop` | internal/lab/service.go:207-269 | changes only owned workloads and the projection, the latter only once all workloads are down; local files stay |
| `LabOperations.Lab.Reset` | internal/lab/service.go:272-307 | a foreign namespace stops it before anything changes; projection and files follow the namespace, and only generated files go |
| `LabOperations.Lab.RunAll` | internal/lab/service.go:121-307 | over any sequence of operations of any environments, failing anywhere, objects that belong to none of them, a `.env` without the marker and unrecognised files stay exactly as they are, and a canonical projection stays canonical |
| `LabService.OtherLabsAreForeign` | internal/lab/service.go:659-669 | an object owned by another lab, namespace or cluster is never owned here, `%02d` labels being injective |
| `Decimal.ShowTwoDigitsInjective` | internal/lab/service.go:659-669 | two labs with the same `%02d` label are the same lab |
| `Decimal.ShowTwoDigitsExact` | internal/lab/service.go:663-663 | `%02d` is the number itself, padded with a zero to two digits |
| `EnvironmentConfig.CheckComponents` | internal/environment/config.go:109-119 | passes exactly for lists of distinct known components; otherwise names the first that is unknown or repeated |
| `EnvironmentConfig.ComponentsAccumulate` | internal/environment/config.go:139-140 | exactly the labs 1 to 5 exist, and each has the components of the ones before it in one fixed order |
| `EnvironmentConfig.PatternMatchesLegal` | internal/environment/config.go:21-21 | the name pattern matches exactly the non-empty names of ASCII letters, digits and underscores that do not begin with a digit |
| `EnvironmentConfig.CollectEnv` | internal/environment/config.go:121-134 | passes, in whatever iteration order, exactly if every name and value is legal and unreserved, and collects every entry; otherwise names the first of the iteration that is not |
| `EnvironmentConfig.SortedCollectionIsNormal` | internal/environment/config.go:121-137 | the collected variables, sorted, are strictly sorted by name and are exactly the table's entries |
| `EnvironmentConfig.PermutationIsDistinctAndKnown` | internal/environment/config.go:139-152 | a permutation of a lab's components passes the component loop |
| `EnvironmentConfig.Parse` | internal/environment/config.go:92-155 | accepts exactly if schema is 1, components are a permutation of the lab's set and the env table is legal; returns the normal form; a rejection names the first fault, down to the component index or the variable |
| `EnvironmentConfig.NormalFormUnique` | internal/environment/config.go:135-154 | a document has one normal form |
| `EnvironmentConfig.OrderIsIrrelevant` | internal/environment/config.go:92-155 | component order and map iteration order change neither acceptance nor result |
| `EnvironmentConfig.VariablesAreDistinctAndLegal` | internal/environment/config.go:33-42 | the variables of an accepted configuration are the lab's built-in ones followed by the custom ones, with distinct legal names and one-line values |
| `EnvFile.CutAssignment` | internal/lab/service.go:1149-1151 | cutting an assignment at the first `=` gives the variable back |
| `EnvFile.ReadBackContent` | internal/lab/service.go:1140-1153 | reading the file back gives the variables exactly, in order |
| `EnvFile.EnvRoundTrip` | internal/lab/service.go:1140-1153 | for every acceptable document and newline-free version the file has its four header lines, passes the ownership check, and reads back as the lab's built-in variables followed by the custom ones: every entry of the env table with its value, no name twice, nothing else |
| `EnvFile.MarkerComesFirst` | internal/lab/service.go:1105-1111 | the first line, as read, is the marker exactly if the file is the marker or begins with it and a newline |
| `EnvFile.ProjectDirectory.EnsureEnvWritable` | internal/lab/service.go:1089-1113 | faults aside, exactly an absent or generated `.env` is writable |
| `EnvFile.ProjectDirectory.WriteEnv` | internal/lab/service.go:1140-1190 | a foreign `.env` is refused and unchanged; otherwise the file is the old one or the complete new one |
| `EnvFile.ProjectDirectory.RemoveEnv` | internal/lab/service.go:1236-1265 | removes exactly a generated `.env` |
| `EnvFile.ProjectDirectory.RunAll` | internal/lab/service.go:1089-1265 | over any run of starts, which may fail between check and write, and resets, a `.env` without the marker never changes, and without faults the last operation decides the file |
| `Streams.LineWriter.AppendPartial` | internal/progress/progress.go:88-96 | keeps exactly the first 4096 bytes of the current line |
| `Streams.LineWriter.Emit` | internal/progress/progress.go:98-103 | at a line end, all non-empty bounded lines so far have been reported |
| `Streams.LineWriter.Write` | internal/progress/progress.go:71-86 | takes the whole chunk and keeps the writer in step with the whole stream |
| `Streams.LineWriter.Close` | internal/progress/progress.go:105-111 | reports the unterminated last line |
| `Streams.ObserveChunks` | internal/progress/progress.go:71-111 | for every way of cutting a stream into writes, the events are the stream's lines, each bounded, the empty ones dropped |
| `Streams.EventsAreLines` | internal/progress/progress.go:65-103 | whatever is written, no event is empty, oversized or holds a newline |
| `Streams.Buffer.constructor` | internal/boundedio/buffer.go:15-17 | a negative limit is zero |
| `Streams.Buffer.Write` | internal/boundedio/buffer.go:20-33 | keeps the bounded prefix of the whole stream and knows exactly whether bytes were lost |
| `Streams.CaptureChunks` | internal/boundedio/buffer.go:20-38 | for every way of cutting, data is the limit-bounded prefix and truncation is reported exactly if the total exceeds the limit |
| `Utf8.ValidIffEncoded` | internal/redact/redact.go:41-44 | the grammar of section 4 of RFC 3629 accepts exactly what the encoder of section 3 produces |
| `Utf8.CutValidIffBoundary` | internal/redact/redact.go:41-44 | a cut of valid text is valid exactly at a character boundary |
| `Utf8.BoundaryNearby` | internal/redact/redact.go:42-44 | every position has a boundary at most three bytes before it, so the loop ends early |
| `Redact.StripAnsiRejoins` | internal/redact/redact.go:27-30 | a control sequence inside plain text disappears and joins what it had split |
| `Redact.AnsiLengthSound` | internal/redact/redact.go:14-14 | nothing but a whole control sequence is ever taken for one |
| `Redact.StripAnsiKeepsRest` | internal/redact/redact.go:30-30 | text in which no control sequence begins is left alone, lone escapes and all |
| `Redact.DropControlsCleans` | internal/redact/redact.go:31-36 | whatever bytes come in, the result is valid UTF-8 with no C0 control but newline, carriage return and tab |
| `Redact.DropControlsExact` | internal/redact/redact.go:31-36 | on valid text exactly the unwanted controls are removed, scalar by scalar |
| `Redact.CutToCharacters` | internal/redact/redact.go:41-44 | the loop ends with the longest prefix of whole characters that fits, at most three bytes short |
| `Redact.TerminalText` | internal/redact/redact.go:26-46 | valid, clean text; over the bound it is the longest fitting prefix and the ellipsis, of at most maxBytes+3 bytes |
| `Redact.LongestFittingIsWholeCharacters` | internal/redact/redact.go:41-46 | the kept prefix encodes the first n scalars, and n+1 would not fit |
| `ProgressSession.LogAfterIsLogOf` | internal/cli/progress.go:105-124 | appending entry by entry yields the specified log of the whole history |
| `ProgressSession.LogOfIsBoundedPrefix` | internal/cli/progress.go:105-124 | the log is at most 2 MiB: it is complete if everything fits; otherwise it is the longest prefix of whole entries that fits, and the marker exactly if that fits too |
| `ProgressSession.Session.ReportLine` | internal/cli/progress.go:72-103 | stage, tail and log are what the accepted lines call for; after the end nothing changes |
| `ProgressSession.Session.ReportAll` | internal/cli/progress.go:65-70 | the lines of an event are reported in order |
| `ProgressSession.Session.Finish` | internal/cli/progress.go:126-161 | failure lines are logged, not shown in the tail, and the session ends |
| `ProgressSession.RunSession` | internal/cli/progress.go:65-161 | over a whole session the tail is the last six accepted non-stage lines, the log is bounded, and late reports leave no trace |
| `PushService.Service.constructor` | internal/pushservice/service.go:87-99 | the new service satisfies the invariant with a full bucket, or none for rate 0 |
| `PushService.Service.PatchBehaviour` | internal/pushservice/service.go:109-134 | a patch is applied exactly if its values are in range; then each arrives, latency in nanoseconds within int64, and the others are kept; a rejected one changes nothing; a rate change starts a full bucket, and only that touches the limiter |
| `PushService.PatchIsExact` | internal/pushservice/service.go:109-134 | the same of the state function that the run theorems are about |
| `PushService.Service.SnapshotAndAllow` | internal/pushservice/service.go:188-203 | the decision is the bucket's; a denial consumes nothing |
| `PushService.RetryAfterIsLeast` | internal/pushservice/service.go:198-201 | the advised delay is the least whole number of seconds, at least one, in which a token gathers |
| `PushService.HandleKeepsInvariant` | internal/pushservice/service.go:188-211 | every single event keeps that invariant |
| `PushService.Run` | internal/pushservice/service.go:109-211 | in every reachable state the limiter is nil exactly for rate 0 and holds between 0 and burst tokens |
| `PushService.OnlyAdmissionsAndRateChangesTouchBucket` | internal/pushservice/service.go:109-148 | invalid or refused requests and patches that keep the rate neither consume nor refill tokens; a rate change starts a full bucket |
| `PushService.AdmissionsBounded` | internal/pushservice/service.go:188-203 | for all readings, even decreasing ones, admissions are at most the tokens at hand plus the refill of the clock's forward movement |
| `PushService.AdmissionsWithinMovement` | internal/pushservice/service.go:188-211 | readings in any order that move forward by at most d in all let through at most burst + rps*d between two rate changes |
| `PushService.AdmissionsWithinSpan` | internal/pushservice/service.go:188-211 | with nondecreasing readings, admissions between two rate changes within a span d are at most burst + rps*d |
| `PushRuns.BoundHoldsIff` | internal/pushservice/service.go:145-203 | for readings in any order, the bound burst + rps*d holds for every rate, burst and number of requests exactly when they move forward by at most d in all |
| `PushRuns.OutOfOrderExceedsBound` | internal/pushservice/service.go:145-203 | a concrete order of five readings within one second that exceeds the bound |
| `PushService.AccruedIsProduct` | internal/pushservice/service.go:205-211 | the refill used in the bounds is rps times the elapsed seconds |
| `PushRuns.LimiterBehindDecisions` | internal/pushservice/service.go:145-203 | whatever the order of the readings, the limiter is never ahead of the last decision |
| `PushService.RetryAdmittedIff` | internal/pushservice/service.go:188-203 | after a refusal, with no admission or rate change in between, a request at any reading is admitted exactly when that reading is not before the limiter's last admission and a whole token has gathered |
| `PushRuns.EveryRetryAdmitted` | internal/pushservice/http.go:35-41 | after any run of a new service, with readings in any order, a request refused at some moment is admitted when its retry reads the clock at least Retry-After later (section 10.2.3 of RFC 9110), with no admission and no rate change in between |
| `RenderedOutput.OutputDirectory.RemoveLegacyLock` | internal/generator/write.go:79-102 | only a regular file that starts with the marker is removed, and it fails exactly if an operation it needs does |
| `RenderedOutput.BaseIff` | internal/generator/write.go:31-33 | the test with `filepath.Base` lets through exactly single path elements other than `.`, and the root |
| `RenderedOutput.OutputDirectory.Fill` | internal/generator/write.go:30-37 | succeeds exactly if all names are accepted and all writes succeed, with the bundle's tree in the scratch directory and nothing else changed at any moment |
| `RenderedOutput.OutputDirectory.Replace` | internal/generator/write.go:49-76 | after every operation the old tree is complete in place or in the backup, or the new one is complete in place; a failed rollback leaves the old tree in the backup alone |
| `RenderedOutput.OutputDirectory.Settle` | internal/generator/write.go:68-76 | once the new tree is in place it stays; the backup and a recognised lock go |
| `RenderedOutput.OutputDirectory.Swap` | internal/generator/write.go:39-76 | the rendered entry ends new, old, or missing, the last exactly if setting aside succeeded and installing and rolling back both failed; no new backup stays unless releasing it or its deferred removal failed |
| `RenderedOutput.OutputDirectory.Write` | internal/generator/write.go:16-77 | for every set of failing operations: rendered is exactly the new tree, exactly the old state, or missing, each under an exact condition; one complete tree exists at every moment before the deferred removal of a losing call; siblings other than a recognised legacy lock are unchanged; success leaves nothing temporary and happens exactly if no needed operation fails |
| `RenderedOutput.OneFaultLeavesTree` | internal/generator/write.go:47-66 | at most one failing operation never leaves the place of the rendered tree empty |
| `RenderedOutput.LosingRun` | internal/generator/write.go:47-66 | for every old tree there is a call with two failing renames after which the output directory is empty |
| `RenderedOutput.LateFailureRun` | internal/generator/write.go:62-76 | for every old tree and writable bundle there is a call with one failing operation that reports an error and leaves the new tree |
| `RenderedOutput.OutputDirectory.RemoveGenerated` | internal/lab/service.go:1192-1235 | the rendered tree and a recognised lock go, the directory itself if nothing else is in it, everything else stays |
| `TopicReconciler.Reconciler.ReconcileTopic` | internal/redpanda/config.go:18-32 | one topic reaches exactly its desired count or the script stops; no count drops, no other topic changes, an oversized one is left as it is |
| `TopicReconciler.Reconciler.Reconcile` | internal/redpanda/config.go:15-35 | at every moment no count has dropped and no unlisted topic changed; a completed pass converges and sets the mark, an oversized topic stops it without the mark, a converged broker is unchanged; without faults it completes exactly if every topic can be reconciled |
| `TopicReconciler.Reconciler.Passes` | internal/redpanda/config.go:36-39 | the same over any number of passes, the mark being present exactly if none failed |
| `ReleasePublisher.MatchRender` | scripts/publish-release:13-13 | every version is read back from its tag |
| `ReleasePublisher.RenderMatch` | scripts/publish-release:13-13 | every accepted tag is the one tag of its version |
| `ReleasePublisher.DistinctTagsNeverTie` | scripts/publish-release:48-53 | of two distinct accepted tags exactly one has the greater number where major, minor and patch first differ |
| `ReleasePublisher.VerifyTag` | scripts/publish-release:20-25 | passes exactly if following tag objects leads to the verified commit |
| `ReleasePublisher.Repository.FindExisting` | scripts/publish-release:39-46 | finds nothing exactly if the version has no release |
| `ReleasePublisher.Repository.BecomesLatest` | scripts/publish-release:48-53 | true exactly if, against every published stable version, the first of major, minor and patch that differs is greater |
| `ReleasePublisher.RaisedVersionIsLatest` | scripts/publish-release:48-53 | raising the latest version in its major number, or minor, or patch, makes the next latest one |
| `ReleasePublisher.PublishKeepsLatest` | scripts/publish-release:48-53 | with that decision `latest` names the greatest published stable version and never moves backwards |
| `ReleasePublisher.Repository.Run` | scripts/publish-release:28-80 | published releases never change, latest stays the greatest, a failed run leaves at most a draft; without faults it publishes exactly a verified, new, complete version |
| `ReleasePublisher.Repository.RunAll` | scripts/publish-release:28-80 | the same over any sequence of runs and discarded drafts |

## Left out

- Docker, kind, Kubernetes, GitHub and file-system calls themselves: each is a step that takes effect or fails; a failed `docker run` or `kind create` is taken to leave nothing, and `writeState` is taken as atomic.
- The cluster service is modelled on values, as a transition system over its steps, because its properties are about interleavings; update in place and aliasing of its Go objects are not captured.
- Deleting a namespace is not an event of the interleaved protocol; `LabService` and `LabOperations` have it.
- Outsiders change containers, objects and the state file only while the lock is free, and do not forge the Start call that made a resource.
- Within one lab operation the Kubernetes objects change only by its own requests; a user's `kubectl` between a check and its patch is not modelled.
- LabService.Api.Start: building the push image is one step that may fail; which image it is belongs to the given bundle.
- LabService.Api.Stop: the settings it looks for in Redpanda objects and in the push image reference are given as conditions on the applied fields, and that exactly one Redpanda volume claim exists is not modelled; both only add reasons to stop before any change.
- LabOperations.Lab.Start: loading the configuration and the final status report are not modelled beyond the latter's possible failure.
- Server-side apply is reduced to the applied fields and the fields of other managers; conflicts are failed requests.
- TOML, YAML and JSON decoding, templates and generated manifests: the model starts from decoded documents and a given bundle.
- Catalog tables of ports, images and variables: only the component sets and the facts in `Catalog.WellFormed` are used.
- Redact.TerminalText: which credentials `Text` recognises is not modelled; it is any function that keeps valid text valid and adds no control.
- `safeProgressLines` (splitting and trimming), the time stamps of log entries, saving and pruning log files, and all rendering.
- PushService.AdmissionsWithinSpan: tokens are exact numbers; `float64` rounding, latency waiting and injected failures after admission are not modelled.
- TopicReconciler.Reconciler.Reconcile: parsing of `/config/topics` and of `rpk` output, and failures of `rm` and `touch`.
- ReleasePublisher.Repository.Run: the asset inventory and checksum test is one input; runs are serialised.
- Downloads, port checks, doctor output, error texts, contract assets, push image building and command wiring would only add easy members.
