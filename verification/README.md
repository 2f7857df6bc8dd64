# Hivy: deploy daemon, schema flattening, canvas watch, tool grants

A Dafny model of the stateful core of the Hivy repository, with proofs about every run of it. The
`.dfy` files follow the program's own files:

| file | program | form |
|---|---|---|
| `Manager.dfy` | the process manager's critical sections | class `DirectManager` over functions |
| `Archive.dfy`, `Disk.dfy`, `Deploy.dfy` | releases, staging, the `current` symlink, the three mutating handlers | class `AppRoot` over values |
| `Daemon.dfy`, `Shutdown.dfy`, `Failures.dfy` | the whole daemon in direct mode | a step machine with an inductive invariant |
| `EnvFile.dfy` | printing and parsing the env file | class `File` over functions |
| `LogStore.dfy` | log rotation and the tail query | class `LogFiles` over functions |
| `OpenApi.dfy`, `Flatten.dfy`, `Namespacing.dfy` | OpenAPI 3 response schemas | classes `Flattener`, `ParseResult` |
| `WatchLoop.dfy` | the canvas watch loop | a method with the loop, a rule about the past |
| `HtmlTree.dfy`, `HtmlValidator.dfy` | node paths and canvas ids | class `Validator` over tree functions |
| `ToolFilter.dfy`, `RuntimeTools.dfy` | tool grants and runtime tools | class `Filter`, methods over maps |
| `Prelude.dfy`, `Strings.dfy` | shared datatypes; the used parts of Go's `strings` and `sort` | functions and lemmas |

`dafny verify dfyconfig.toml` checks all of it.

## How the parts fit

Where the program changes fields or files step by step, a class does the same, and each method is
proved against a function or predicate that says what the new state is. The lemmas are about those.
What such a function computes is in turn said without it, in lemmas named `...Exactly` or `...Holds`:
off the archive's entries, the schema's own references, the lines, lists, keys and characters.

*The daemon.* `Daemon.World` holds one manager, any number of supervised children, the reads that
`startLocked` makes one after the other, the handler that holds `deployMu`, the requests that wait for
it, and the disk. `Daemon.Step` interleaves them, with a crash of the daemon possible after every step.
The critical sections are the functions that the methods of `DirectManager` are proved to compute.
A handler's steps on the disk are those that `Disk.Moves` allows for its request. The methods of
`AppRoot` are proved to take only such steps: a ghost list records every state of the disk since the
handler began, and `Disk.IsRun` of that list is part of their invariant. `Daemon.RunIsPath` takes every
such list into a run of the daemon. `Start` runs once and before any handler, as `main.go:61` has it;
handlers exclude each other (`server.go:19`); after the server has closed no new request comes in, but
handlers at work or waiting may survive a shutdown that timed out (`main.go:84-88`).

*What turned out false, and when.* Each of these is stated with the exact condition.

- A stopped manager can start a child. `Restart` does not look at `stopped` again after it stopped the
  old child, so a handler that outlives the server's ten seconds starts the app after `Shutdown`. Some
  run does so exactly if the handler at work is past its work on the disk with something to run, or its
  request or a waiting one can still get there: a valid environment with something to run, or a
  rollback, or a deploy with a valid environment if any, whose release is there or can still be
  staged, by itself or by another deploy (`Shutdown.StartAfterShutdownExactly`). Such a state comes about on
  every disk with a release in force (`Shutdown.StoppedWithStartPending`).
- A deploy refused at the symlink swap has already replaced the env file. A child that ran in the
  file's environment before does so afterwards exactly if the deploy sent no variables, or such as give
  the same environment over the base of PATH and HOME (`Daemon.RefusedDeployEnvExactly`; over any run,
  `Daemon.EnvOverRun`). Environments are compared as a process sees them: parsed, the last binding of
  a name counting. `Daemon.RefusedDeploy` makes the failure happen.
- A supervisor whose automatic restart fails to start the app does not try again: a call of
  `startLocked` leaves the daemon dormant exactly if it starts nothing or the manager is stopped
  (`Shutdown.FailedStartIsDormant`), and a running manager with a release in force is dormant exactly
  if nothing starts a child any more short of Start and Restart (`Shutdown.DormantExactly`).
- Deploying a sha again under another version id leaves the version marker of the first deploy: the
  marker is written exactly if the release was not there (`Deploy.AppRoot.StageRelease`).
- The log query reads files, not one log: the two agree for every filter exactly if no line runs across
  a file boundary (`LogStore.ReadsAsOneLogExactly`). A rotation changes an answer exactly if it drops
  lines the limit reaches (`LogStore.RotationChangesTail`).
- The schema search ends exactly if every chain of arrays of arrays it reaches ends
  (`Flatten.SearchEndsExactly`); two arrays that name each other make it diverge
  (`Flatten.ArrayCycleNeverEnds`).
- Extracting a response can leave a reference dangling: exactly if the response is a new inline object
  that refers to a component which has no entry yet. It can put an entry under a component's name that
  is not the component's: exactly if a new made-up name is also that of a component with another entry
  (both `Flatten.Flattener.ExtractResponse`; an instance is `Flatten.InlineDangles`).
- Namespacing rules out schema conflicts, but not action conflicts. Merging succeeds exactly if each
  action found in two documents has the same definition in both and a response schema that is renamed
  in neither, or in one of them to what the other literally calls its own (`Namespacing.Combine`).
- `nodePath` tells all elements apart exactly if no two siblings share a label
  (`HtmlTree.PathsDistinctExactly`). An element name may contain `:nth-of-type(`, and then they can
  (`HtmlTree.LabelClash`); without such element names they cannot (`HtmlTree.PlainNamesApart`).
- By the tick after a directory came to rest the last sync is of its state exactly if it is not empty
  or anything was synced before it came to rest (`WatchLoop.SteadyIsSyncedExactly`).

## Model

| member | source | states |
|---|---|---|
| Daemon.StepKeepsInv | cmd/hivy-appd/process_direct.go:45-209 | every step of the manager, a supervisor, a handler, a child or a crash keeps the invariant on generations, tracked child, live children, lock, handler, freshness, disk and activation log |
| Daemon.RunKeepsInv | cmd/hivy-appd/process_direct.go:45-209 | so does every interleaving of any length |
| Daemon.SupervisorGenerations | cmd/hivy-appd/process_direct.go:54-187 | in every reachable state generations are distinct and at most the manager's, one supervisor at most holds the manager's, and a tracked child's supervisor is that one and, short of a shutdown, has yet to report |
| Daemon.OnlyInChargeStarts | cmd/hivy-appd/process_direct.go:107-187 | `startLocked` runs with no tracked child, a supervisor inside it is never stale, and the `m.cmd != nil` guard of a supervisor that wakes in charge never holds |
| Daemon.TrackedChildIsCurrent | cmd/hivy-appd/deploy.go:84-97 | whenever no handler is at work, or it has yet to move `current`, the tracked child runs the complete release that `current` names, however the last handler ended and whatever automatic restarts raced with the swap |
| Daemon.TrackedChildHasEnv | cmd/hivy-appd/process_direct.go:107-145 | with no handler at work the tracked child runs in the env file's environment if and only if no deploy was refused at the swap since the last restart, or the variables the last of those sent give the environment it has |
| Daemon.FileIsLastSent | cmd/hivy-appd/envfile.go:108-129 | after any run the env file is the one written for the variables sent last, or as it was if none were |
| Daemon.EnvOverRun | cmd/hivy-appd/process_direct.go:107-145 | over any run without a crash, a child that ran in the file's environment does so at the end if and only if nothing was sent, or last variables that give the same one |
| Daemon.RefusedDeployEnvExactly | cmd/hivy-appd/deploy.go:77-89 | after a deploy refused at the swap, whatever else went on meanwhile, a child that ran in the file's environment does so if and only if no variables were sent, or such as give the same one |
| Daemon.RefusedDeploy | cmd/hivy-appd/deploy.go:77-89 | the failure made to happen through the deploy handler, with a tracked child and any variables that give another environment |
| Daemon.RefusedDeployLeavesEnvStale | cmd/hivy-appd/deploy.go:77-89 | from every reachable state with a tracked child, an idle handler and no refused deploy since the last restart, some run leaves the child in an environment that is not the file's, for all variables that give another one |
| Daemon.RunIsPath | cmd/hivy-appd/server.go:19-21 | every list of disk states that a handler may go through is a run of the daemon |
| Daemon.NoChildLost | cmd/hivy-appd/process_direct.go:54-67 | every live child is tracked or was handed to `stopProcess` |
| Daemon.AtMostOneAlive | cmd/hivy-appd/process_direct.go:190-209 | if every stop so far saw its child end, at most one child is alive, the tracked one |
| Daemon.DiskStaysSafe | cmd/hivy-appd/deploy.go:206-274 | through any deploys, rollbacks and crashes releases with a server are complete, `current` names a runnable one, and the (old, new) pairs of the activations form a chain that ends in `current` |
| Daemon.ReleasesStay | cmd/hivy-appd/deploy.go:206-214 | no run of the daemon, with deploys, rollbacks and crashes, changes a finished release |
| Shutdown.DormantStaysDown | cmd/hivy-appd/process_direct.go:155-187 | from a state with no start under way and no supervisor in charge, no continuation without Start and Restart starts a child |
| Shutdown.DormantExactly | cmd/hivy-appd/process_direct.go:150-187 | a running manager with a release in force is in such a state if and only if no run without Start and Restart starts a child |
| Shutdown.ShutdownIsDormant | cmd/hivy-appd/process_direct.go:92-102 | Shutdown leads to such a state, whatever supervisors wait or sleep |
| Shutdown.FailedStartIsDormant | cmd/hivy-appd/process_direct.go:107-187 | a call of `startLocked` leads to such a state if and only if it starts nothing or the manager is stopped |
| Shutdown.HandlerEnds | cmd/hivy-appd/process_direct.go:54-67 | from every reachable state, whoever is starting the app, the handler can be driven to its end, and if a Restart is to come with something to run a child starts |
| Shutdown.MayMeansCan | cmd/hivy-appd/process_direct.go:54-67 | if the handler at work or a waiting request may start the app, some run does |
| Shutdown.WoundUpStaysDown | cmd/hivy-appd/main.go:81-90 | after Shutdown with the server closed and none of them able to, no run of the daemon starts a child |
| Shutdown.StartAfterShutdownExactly | cmd/hivy-appd/main.go:81-90 | after Shutdown some run starts a child if and only if the handler's phase, the queue, the disk and the bundles allow it, as spelled out above |
| Shutdown.StoppedWithStartPending | cmd/hivy-appd/main.go:81-90 | on every disk with a release in force a stopped daemon with a start pending is reachable |
| Manager.BackoffDoubles | cmd/hivy-appd/process_direct.go:219-228 | the delay is one second for the first failure, doubles with each further one and is capped at thirty |
| Manager.DirectManager.Start | cmd/hivy-appd/process_direct.go:45-52 | starts only when nothing is tracked, and fails exactly when the launch does |
| Manager.DirectManager.LaunchChild | cmd/hivy-appd/process_direct.go:107-145 | the whole new manager state for each way a launch can end |
| Manager.DirectManager.BeginRestart | cmd/hivy-appd/process_direct.go:54-63 | takes a new generation, clears the failures and hands over the tracked child |
| Manager.DirectManager.BeginShutdown | cmd/hivy-appd/process_direct.go:92-101 | the same, and stops the manager for good |
| Manager.DirectManager.NoteExit | cmd/hivy-appd/process_direct.go:150-166 | changes the state exactly if the supervisor is in charge: the failure count starts again at one, with a second's wait, after a run of more than a minute, and goes up by one otherwise, with the backoff for it |
| Failures.FailuresCount | cmd/hivy-appd/process_direct.go:150-166 | over every run the failure count is the number of exits since the last Restart or the last child that ran for more than a minute, whichever came later, that child's exit included |
| Manager.DirectManager.MayRestart | cmd/hivy-appd/process_direct.go:179-183 | a supervisor that wakes restarts exactly if it is in charge and nothing is tracked |
| Manager.DirectManager.RestartBackoff | cmd/hivy-appd/process_direct.go:219-228 | the loop computes the recursive backoff |
| Disk.SafeRunnable | cmd/hivy-appd/process.go:69-76 | on a safe disk there is a binary to start exactly if `current` is set |
| Archive.UnpackedHolds | cmd/hivy-appd/ziputil.go:19-106 | an archive can be unpacked exactly if no entry is rejected and no name is both a file's and a folder's, and then each name holds the data of its last entry with the mode of its first |
| Archive.StagedHolds | cmd/hivy-appd/deploy.go:222-237 | a staged release is that, with the server runnable and the version marker as given |
| Disk.ValidShaExactly | cmd/hivy-appd/deploy.go:16-16 | sixty-four lower-case hexadecimal digits |
| Disk.StageOnce | cmd/hivy-appd/deploy.go:206-245 | any deployable bundle not yet released can be staged on any safe disk |
| Disk.RunKeepsReleased | cmd/hivy-appd/deploy.go:206-214 | through a handler's run finished releases keep their content, and every state is safe |
| Deploy.AppRoot.ExtractZip | cmd/hivy-appd/ziputil.go:19-106 | extraction touches only the staging directory and leaves the archive's entries there; if the calls work it succeeds exactly for an archive that can be unpacked |
| Deploy.AppRoot.RemoveStaging | cmd/hivy-appd/deploy.go:220-220 | removing the staging directory, whole or in part, touches nothing else |
| Deploy.AppRoot.ClearStaleRelease | cmd/hivy-appd/deploy.go:238-240 | removing a stale release directory never exposes a server and touches no other release |
| Deploy.AppRoot.StageRelease | cmd/hivy-appd/deploy.go:210-245 | succeeds exactly if the release is there afterwards, with the archive's files and the marker; if the calls work, exactly for a deployable bundle; leaves an existing release as it is and all others, the links, `current` and the env file unmoved, and keeps the disk safe at every step |
| Deploy.AppRoot.SwapCurrentSymlink | cmd/hivy-appd/deploy.go:249-260 | succeeds exactly if the calls work, an old temporary link included, and moves `current` in the last step or not at all |
| Deploy.AppRoot.WriteEnv | cmd/hivy-appd/envfile.go:18-64 | replaces the env file by the rendered text in one step exactly if the variables are valid and the calls work |
| Deploy.AppRoot.HandleDeploy | cmd/hivy-appd/deploy.go:40-98 | which request is answered how, and for each answer the env file, `current`, the files of the staged release, the others as they were, and how far the run got, every state of it a safe one |
| Deploy.AppRoot.HandleRollback | cmd/hivy-appd/deploy.go:121-150 | accepts exactly releases that are on disk when the swap works, and changes neither releases nor env file |
| Deploy.AppRoot.HandleEnv | cmd/hivy-appd/envfile.go:108-129 | accepts exactly valid variables when the calls work, and replaces the env file and nothing else |
| EnvFile.EscapeBackslashes | cmd/hivy-appd/envfile.go:33-33 | the first replacement doubles each backslash |
| EnvFile.EscapeQuotes | cmd/hivy-appd/envfile.go:33-34 | both replacements together escape character by character |
| EnvFile.UnescapeQuotes | cmd/hivy-appd/envfile.go:94-94 | undoing `\"` first gives back the doubled backslashes, whatever stands before a quote |
| EnvFile.UnescapeBackslashes | cmd/hivy-appd/envfile.go:95-95 | undoing `\\` next gives back the value |
| EnvFile.QuoteRoundTrip | cmd/hivy-appd/envfile.go:91-99 | unquoting inverts quoting for every string |
| EnvFile.UnquotedStays | cmd/hivy-appd/envfile.go:98-98 | a value without quotes around it is taken as it is |
| EnvFile.ParseLineExactly | cmd/hivy-appd/envfile.go:78-86 | a trimmed line counts exactly if what is before its first `=` is a name |
| EnvFile.ValidNameExactly | cmd/hivy-appd/envfile.go:14-14 | letters, digits and underscores, and no digit first |
| EnvFile.ParseRendered | cmd/hivy-appd/envfile.go:66-89 | parsing rendered lines gives their bindings in order |
| EnvFile.EnvRoundTrip | cmd/hivy-appd/envfile.go:18-89 | for all valid names and values without line breaks, parsing the written file gives NAME=value in sorted order |
| EnvFile.BindingsDetermineVars | cmd/hivy-appd/envfile.go:86-86 | the bindings determine the variables, `=` in values or not |
| EnvFile.EnvFileInjective | cmd/hivy-appd/envfile.go:29-36 | different variables give different files |
| EnvFile.WrittenEnv | cmd/hivy-appd/process_direct.go:239-245 | a child started with the file written for some variables has exactly these, over the base |
| EnvFile.BaseEnv | cmd/hivy-appd/process_direct.go:239-245 | without variables the base is a PATH and a HOME |
| EnvFile.File.CheckedNames | cmd/hivy-appd/envfile.go:19-28 | succeeds exactly for valid variables, and an error names an offending one, visited in any order |
| EnvFile.File.Write | cmd/hivy-appd/envfile.go:18-64 | writes the one text for the variables exactly if they are valid and the calls work, and leaves the file alone otherwise |
| EnvFile.File.Parse | cmd/hivy-appd/envfile.go:68-89 | the bindings of the accepted lines; a missing file is an empty environment, an unreadable one an error |
| LogStore.RotationDrops | cmd/hivy-appd/rotate.go:26-41 | a rotation drops exactly the oldest generation, and only if the one before it exists |
| LogStore.MoveKeepsRetained | cmd/hivy-appd/rotate.go:32-34 | renaming a generation onto a free place moves no text |
| LogStore.StepKeepsSuffix | cmd/hivy-appd/rotate.go:14-43 | an append or rotation keeps the retained text a suffix of all that was appended |
| LogStore.RunKeepsSuffix | cmd/hivy-appd/rotate.go:14-43 | so does any run of them, for any number of generations |
| LogStore.MatchingExactly | cmd/hivy-appd/logs.go:128-142 | the lines at exactly the places that hold a non-blank line passing the filter, in order |
| LogStore.MatchingPasses | cmd/hivy-appd/logs.go:128-142 | each of them passes and is there as often as in the file, and no other line is |
| LogStore.LastOfMore | cmd/hivy-appd/logs.go:103-106 | once enough lines are found, older files do not change the answer |
| LogStore.RotationChangesTail | cmd/hivy-appd/logs.go:95-116 | a rotation changes the answer if and only if the dropped file held matching lines the limit still reaches |
| LogStore.WholeLinesRead | cmd/hivy-appd/logs.go:95-147 | with no line across a file boundary, reading file by file sees the matching lines of the concatenation |
| LogStore.ReadsAsOneLogExactly | cmd/hivy-appd/logs.go:95-147 | and for all filters only then |
| LogStore.QueryAnswersForHistory | cmd/hivy-appd/logs.go:95-147 | after any run of whole-line appends and rotations the answer is that of one log never rotated, if and only if no matching line was dropped or the limit is met without it |
| LogStore.LogFiles.RotateIfNeeded | cmd/hivy-appd/rotate.go:14-60 | reports and performs the rotation exactly when the live file has reached the size; what a failed rename, copy or truncation leaves |
| LogStore.LogFiles.ShiftGenerations | cmd/hivy-appd/rotate.go:27-35 | the descending loop moves every generation up by one, or stops with the text of before or after |
| LogStore.LogFiles.FilterFileLines | cmd/hivy-appd/logs.go:120-147 | the last lines of one file that pass, no more than asked for, none for a missing file |
| LogStore.LogFiles.ReadLogTail | cmd/hivy-appd/logs.go:95-116 | the last matching lines of the rotated set although it reads newest first and stops early, all of them passing the filter; an unreadable file is an error exactly if the limit is not met before it |
| OpenApi.RefNameExactly | cmd/fetchactions-oas3/parse_response.go:79-93 | the name is what follows the components prefix, or else the last slash |
| OpenApi.FlatIsEntry | cmd/fetchactions-oas3/parse_response.go:111-136 | an entry is its schema's flat form: kind, items, and of each key's last property the kind, description, nullability and reference |
| OpenApi.TargetsExactly | cmd/fetchactions-oas3/parse_response.go:120-142 | an entry refers to exactly the names that its schema's items, or its properties that are objects or of unknown type, refer to |
| Flatten.CoveredIsFlattened | cmd/fetchactions-oas3/parse_response.go:97-143 | an extension that covers what it adds is exactly what is reachable from the name past the old entries |
| Flatten.FlattenedUnique | cmd/fetchactions-oas3/parse_response.go:138-142 | the outcome does not depend on the order in which properties are visited |
| Flatten.ClosedFlattened | cmd/fetchactions-oas3/parse_response.go:97-143 | from a closed map exactly the missing components are added that references in the schemas lead to, each as its flat form, and the map is closed again |
| Flatten.Flattener.Flatten | cmd/fetchactions-oas3/parse_response.go:97-143 | terminates on every cyclic component graph whose array chains end, with exactly that outcome |
| Flatten.NameForExactly | cmd/fetchactions-oas3/parse_response.go:33-60 | a response's name is its component's, its items' with `_list`, or the inline one |
| Flatten.FirstNameExactly | cmd/fetchactions-oas3/parse_response.go:17-25 | the first response that has a name gives it |
| Flatten.FlattenedKeeps | cmd/fetchactions-oas3/parse_response.go:97-143 | flattening a component leaves no reference of any entry dangling and puts only its own entry under each component's name, if that was so before |
| Flatten.OwnIsClosed | cmd/fetchactions-oas3/parse_response.go:97-143 | a map without dangling references or foreign entries is closed in the sense above |
| Flatten.Flattener.ExtractResponse | cmd/fetchactions-oas3/parse_response.go:12-76 | the first response that names a schema decides, and exactly its component with all within reach, its list entry or its inline object is added; a reference is left dangling if and only if that is a new inline object referring to a component without an entry, and a component's name taken if and only if a new made-up name is one with another entry |
| Flatten.InlineDangles | cmd/fetchactions-oas3/parse_response.go:61-70 | an inline object whose property refers to a component leaves it dangling in an empty map |
| Flatten.SearchEnded | cmd/fetchactions-oas3/parse_response.go:97-143 | a search that ends covers all it adds, and every array chain it met ends |
| Flatten.SearchEndsExactly | cmd/fetchactions-oas3/parse_response.go:116-142 | the search ends if and only if every array chain within reach ends |
| Flatten.ArrayCycleNeverEnds | cmd/fetchactions-oas3/parse_response.go:120-128 | two arrays that name each other as items are searched without end |
| Namespacing.NamespaceExactly | cmd/fetchactions-oas3/main.go:72-74 | the service's name and the index from one, in decimal |
| Namespacing.PrefixFree | cmd/fetchactions-oas3/main.go:72-74 | prefixed names of documents with different indices are never equal |
| Namespacing.RenameKeeps | cmd/fetchactions-oas3/main.go:145-153 | renaming changes references to names of the document and nothing else |
| Namespacing.PartsAreDisjoint | cmd/fetchactions-oas3/main.go:132-155 | the next document shares no schema name with all before it |
| Namespacing.SchemaSurvives | cmd/fetchactions-oas3/main.go:145-155 | every schema of every document is in the result under its prefixed name |
| Namespacing.PropertyRefResolves | cmd/fetchactions-oas3/main.go:146-149 | a property reference that resolved in its document leads to the renamed copy of the same schema |
| Namespacing.ItemsRefResolves | cmd/fetchactions-oas3/main.go:150-152 | so does an array's item reference |
| Namespacing.ActionRefResolves | cmd/fetchactions-oas3/main.go:139-142 | each action of the result is the first document's that has it, and its response leads to the renamed copy of the schema it led to there |
| Namespacing.SameActionExactly | cmd/fetchactions-oas3/main.go:139-142 | an action of two documents is the same after namespacing if and only if its definition is and its response schema is renamed in neither, or in one to what the other calls its own |
| Namespacing.MergesExactly | cmd/fetchactions-oas3/main.go:159-170 | merging one document after the other goes through if and only if every shared action is the same in every two of them |
| Namespacing.SharedActionConflicts | cmd/fetchactions-oas3/main.go:139-142 | an action whose response has a schema in two documents can no longer be merged |
| Namespacing.ParseResult.NamespaceSchemas | cmd/fetchactions-oas3/main.go:123-156 | visiting the maps in any order renames every name and every resolvable reference once |
| Namespacing.ParseResult.Merge | cmd/fetchactions-oas3/main.go:159-183 | succeeds exactly if the two agree on shared keys, and then is their union |
| Namespacing.Combine | cmd/fetchactions-oas3/main.go:51-80 | no schema conflict is ever reported, and an action conflict if and only if a shared action is not the same in two documents |
| WatchLoop.SnapshotsEqual | cmd/canvas/artifact_watch_loop.go:155-165 | equal sizes and one inclusion decide map equality |
| WatchLoop.RunLoop | cmd/canvas/artifact_watch_loop.go:49-90 | the loop with its four variables syncs at the ticks of the step function |
| WatchLoop.LoopRemembers | cmd/canvas/artifact_watch_loop.go:49-90 | those variables hold what a rule about the past needs |
| WatchLoop.LoopFollowsRule | cmd/canvas/artifact_watch_loop.go:54-90 | the loop syncs exactly where that rule says: seen twice running, and new or due for retry |
| WatchLoop.RepeatedSyncIsRetry | cmd/canvas/artifact_watch_loop.go:70-87 | two syncs in a row of one snapshot: the first failed other than by validation, at least ten intervals ago |
| WatchLoop.SyncsAreDebounced | cmd/canvas/artifact_watch_loop.go:66-69 | every sync is of what the observation before saw too |
| WatchLoop.SteadyIsSynced | cmd/canvas/artifact_watch_loop.go:66-75 | by the second tick at the latest the last sync is of the state in which a non-empty directory rests |
| WatchLoop.SettledStaysSettled | cmd/canvas/artifact_watch_loop.go:70-83 | if the last sync is of the state at rest and succeeded or failed validation, made at rest or before, there is no further one |
| WatchLoop.FailedIsRetried | cmd/canvas/artifact_watch_loop.go:84-87 | after another failure the next sync is at the first tick ten intervals later, and not before |
| WatchLoop.SteadyIsSyncedExactly | cmd/canvas/artifact_watch_loop.go:49-75 | by the second tick the last sync is of the state at rest if and only if that is not empty or anything was synced before |
| WatchLoop.EmptyIsNeverFirst | cmd/canvas/artifact_watch_loop.go:49-74 | without a sync before it came to rest an empty directory is never synced |
| HtmlTree.CountChildren | cmd/canvas/artifact_html_helpers.go:124-142 | the loops count the element children, all and of one name |
| HtmlTree.CountsAreSizes | cmd/canvas/artifact_html_helpers.go:124-142 | the counts are the numbers of places that hold such an element |
| HtmlTree.HasDescendantExactly | cmd/canvas/artifact_html_helpers.go:144-154 | a node has a descendant of some name exactly if an element below it has |
| HtmlTree.DocumentOrder | cmd/canvas/artifact_html_validate.go:116-118 | a node is visited before its children, and a child before its later siblings |
| HtmlTree.ChildPath | cmd/canvas/artifact_html_helpers.go:46-75 | a child's path is its parent's, if that is an element, and its name, with its place among the elements of that name from the second on |
| HtmlTree.JoinInjective | cmd/canvas/artifact_html_helpers.go:58-58 | joined labels without spaces determine the labels |
| HtmlTree.PathsDistinctExactly | cmd/canvas/artifact_html_helpers.go:46-75 | node paths tell all elements of a document apart, whatever its text, if and only if no two siblings share a label |
| HtmlTree.LabelInjective | cmd/canvas/artifact_html_helpers.go:52-55 | a label determines name and index for names without the marker |
| HtmlTree.PlainNamesApart | cmd/canvas/artifact_html_helpers.go:46-75 | with such element names no two siblings share a label |
| HtmlTree.LabelClash | cmd/canvas/artifact_html_helpers.go:53-55 | an element named like a label shares it |
| HtmlValidator.RequiredExactly | cmd/canvas/artifact_html_validate.go:216-240 | which elements need an id, by name, parent, siblings and descendants |
| HtmlValidator.ValidCanvasIDExactly | cmd/canvas/artifact_html_validate.go:131-131 | lower-case letters, digits and hyphens, a letter first, no hyphen last or doubled, at most eighty characters |
| HtmlValidator.AttrValueIsFirst | cmd/canvas/artifact_html_validate.go:242-249 | the first attribute of the name counts |
| HtmlValidator.HeadingLevelExactly | cmd/canvas/artifact_html_helpers.go:39-44 | the levels of h1 to h6, and none for other names |
| HtmlValidator.SemanticExactly | cmd/canvas/artifact_html_helpers.go:21-28 | which elements count as semantic |
| HtmlValidator.CleanExactly | cmd/canvas/artifact_html_validate.go:96-157 | the walk reports nothing if and only if all required ids are there, all are well formed and short, and no two are equal |
| HtmlValidator.WalkReports | cmd/canvas/artifact_html_validate.go:121-157 | the same for the rest of any walk, given the ids met before |
| HtmlValidator.IssuesExactly | cmd/canvas/artifact_html_validate.go:121-157 | which issues an element gives rise to, with its path, its id and the first element's path |
| HtmlValidator.HeadingsExactly | cmd/canvas/artifact_html_validate.go:105-107 | the headings noted are those of the elements walked, with their paths |
| HtmlValidator.IdsAreFirstPaths | cmd/canvas/artifact_html_validate.go:143-156 | the walk remembers for each id the path of its first element |
| HtmlValidator.DuplicateNamesFirst | cmd/canvas/artifact_html_validate.go:143-155 | a duplicate is reported with the path of the first element that has the id |
| HtmlValidator.FiguresOf | cmd/canvas/artifact_html_validate.go:98-104 | id count, semantic count and depth equal their recursive definitions on the tree |
| HtmlValidator.Validator.Walk | cmd/canvas/artifact_html_validate.go:96-119 | the recursion does to the fields what processing the nodes in document order does |
| HtmlValidator.Validator.ValidateCanvasID | cmd/canvas/artifact_html_validate.go:121-157 | the issues, ids and count after one element |
| HtmlValidator.Validator.Validate | cmd/canvas/artifact_html_validate.go:49-61 | from a new validator: no issue if and only if clean, and the figures |
| ToolFilter.OptionalExactly | internal/agentruntime/compile_skill_filter.go:154-172 | an optional id is one that is allowed and not denied, spaces aside |
| ToolFilter.ParentGrantExactly | internal/agentruntime/compile_skill_filter.go:57-121 | a parent may call exactly what is allowed and not denied, the baseline, and the email tools with an inbox and only then |
| ToolFilter.SubAgentGrantExactly | internal/agentruntime/compile_skill_filter.go:63-121 | a sub-agent exactly what is allowed, not denied and not for parents only, its floor, and the email tools likewise |
| ToolFilter.FilterForExactly | internal/agentruntime/compile_skill_filter.go:23-48 | the attached catalog's filter goes first, then the stored one's, then the agent's own |
| ToolFilter.EmailIffInbox | internal/agentruntime/compile_skill_filter.go:89-121 | email tools, raw or prefixed, are granted if and only if there is an inbox, as the whole group |
| ToolFilter.EmailStepIdempotent | internal/agentruntime/compile_skill_filter.go:89-121 | doing the email step twice changes nothing |
| ToolFilter.FloorsHold | internal/agentruntime/compile_skill_filter.go:57-84 | no deny takes away the parent baseline, and a sub-agent gets its floor and no parent-only tool |
| ToolFilter.DenyOnlyGrantsNothing | internal/agentruntime/compile_skill_filter.go:149-172 | a filter that only denies grants what no filter grants |
| ToolFilter.NamesOfSorted | internal/agentruntime/compile_skill_filter.go:200-223 | normalizing twice, as the catalog path does, is normalizing once |
| ToolFilter.NormalizeStrings | internal/agentruntime/compile_skill_filter.go:207-223 | the trimmed non-blank names, strictly sorted |
| ToolFilter.NormalizeToolFilter | internal/agentruntime/compile_skill_filter.go:154-172 | the sorted list of what is allowed and not denied |
| ToolFilter.Filter.ApplyFloor | internal/agentruntime/compile_skill_filter.go:177-198 | adds the floor and stays strictly sorted, sorting only if something was added |
| ToolFilter.Filter.ApplyEmailTools | internal/agentruntime/compile_skill_filter.go:89-121 | the sorted grant after the email step, with an empty deny list |
| ToolFilter.CompileSubAgent | internal/agentruntime/compile_skill_filter.go:63-84 | the strictly sorted list of exactly what a sub-agent may call |
| ToolFilter.FromPayload | internal/agentruntime/compile_skill_filter.go:136-147 | nil exactly if neither list is given, else the parent filter of the raw lists |
| ToolFilter.Resolve | internal/agentruntime/compile_skill_filter.go:23-48 | never nil: the strictly sorted list of exactly what the agent may call, on catalog and user paths alike |
| RuntimeTools.EnabledExactly | internal/agentruntime/compile_tools.go:137-156 | null, false and objects that are not enabled switch a key off |
| RuntimeTools.ExpandExactly | internal/agentruntime/compile_tools.go:158-190 | a key stands for the tool it names, or for which it is a legacy name |
| RuntimeTools.UnknownExactly | internal/agentruntime/compile_tools.go:158-190 | a key is unknown exactly if it is neither a tool, a legacy name, retired, nor grantable elsewhere |
| RuntimeTools.CanonicalExactly | internal/agentruntime/compile_tools.go:192-195 | the canonical keys of a tool are its name, and that with `builtin.` in front |
| RuntimeTools.DecidedExactly | internal/agentruntime/compile_tools.go:115-134 | a tool is decided exactly if it has an enabled key, by the last canonical one in sorted order, or without one by the first alias |
| RuntimeTools.DecidedUnique | internal/agentruntime/compile_tools.go:108-135 | which value each tool gets is fixed by the selection, so map order cannot matter |
| RuntimeTools.AddAlias | internal/agentruntime/compile_tools.go:128-130 | an alias after any key of the tool changes nothing |
| RuntimeTools.AddWinner | internal/agentruntime/compile_tools.go:128-131 | a canonical key, or the first key of a tool, decides it |
| RuntimeTools.Normalize | internal/agentruntime/compile_tools.go:108-135 | refused exactly for an enabled unknown key, naming the first; else for each tool the last enabled canonical key wins, or without one the first enabled alias |
| RuntimeTools.ChosenIsSubsequence | internal/agentruntime/compile_tools.go:94-104 | what is emitted is a subsequence of the order, of exactly the ids present |
| RuntimeTools.AllEmitted | internal/agentruntime/compile_tools.go:22-34 | the order lists every tool a key can stand for, so none is lost |
| RuntimeTools.LockedToolsStay | internal/agentruntime/compile_tools.go:48-56 | no stored value takes the drive tools away; only a canonical key sorted later still sets the value |
| RuntimeTools.Build | internal/agentruntime/compile_tools.go:82-106 | success only with every enabled key known, and then one spec for each decided tool in the fixed order; else the first unknown key, or the first error of a spec |

## Left out

- HTTP, JSON, bearer auth, downloads and sha256: a verified bundle is a value determined by its sha, and the sha arrives trimmed and in lower case.
- Power loss and fsync: a crash is one of the process, and what file-system calls have done stays done. Children die with the daemon, as when it is the container's first process.
- A handler that has met an error is told apart from one still at work only when it returns. The order in which waiting handlers get the lock is arbitrary. Which calls fail inside staging is arbitrary too; those of the env file and the swap are inputs.
- systemd mode, status, health and journal.
- The `ctx.Done` branch of `supervise` (process_direct.go:174-176): its context is made with `WithoutCancel`, so the branch is never taken. Wrap-around of the 64-bit generation.
- Zip path cleaning, size limits and the parent directories an entry implies: entry names are taken as clean, and an unsafe entry, a link or a device is one `Rejected` entry.
- The link text `releases/<sha>` is kept as the sha. Tables of names, such as the order of the runtime tools and the retired keys, are data, written down once.
- Appends between the copy and the truncation of a rotation, which the program loses; stat errors other than absence in the rotation loop.
- The grep and since filters are an arbitrary predicate on lines; log timestamps are not parsed.
- Flatten.Flattener.Flatten: a Go map cannot record that a call never returns, so the method asks for ending array chains, and the searches without them are covered by `Flatten.SearchEndsExactly` on a search with a depth bound.
- Namespacing.ParseResult.Merge: two values are equal if they are the same value, where the program compares their JSON; which of several conflicts is named depends on map order and is left open.
- Snapshot errors and cancellation of the watch loop: its run is that over the ticks before the end. What a sync does is its result only.
- HTML parsing, document-shape, main and heading checks, the wording of issues; lower-casing of non-ASCII names. That a path is no unique CSS selector is not stated.
- Nil and empty lists in tool filters are not told apart; reading the catalog manifest and the database is the choice of a payload that is there or not.
- Runtime tool configuration is an arbitrary function from a tool and its value to a spec or an error.
- `toSnakeCase` and the rest of operation parsing: the inline name is an input.
- OpenAPI 2 parsing, which repeats the OpenAPI 3 search; provider tables, the server, the web and mobile apps.
