# Verified models of CodeFlowMu's hard parts

Dafny models of the pieces of CodeFlowMu whose correctness rests on an invariant: the migration of a workspace to
the project root, the log centre's fault aggregation and calendar arithmetic, the atomic writer, the mobile task
graph, the frontmatter format, the mutation kernel's lifecycle gate, the doorbell buffer, and the home reactor's
projections and replay. Run `dafny verify dfyconfig.toml` to check everything.

| file | what it models |
|---|---|
| `FileTree.dfy`, `MigrationPlan.dfy`, `MigrationLog.dfy`, `Migration.dfy` | moving the single workspace to the root as a transaction with two undo logs, on a disk where any operation may fail and a failed write leaves garbage |
| `FaultClusters.dfy` | the one-pass fault clusterer with its two maps and mutable groups |
| `Calendar.dfy`, `LegacyTime.dfy`, `DayStart.dfy` | proleptic Gregorian time values (section 21.4.1 of ECMA-262), the formatter and parser of log dates, the search for the start of the day |
| `TempNames.dfy`, `AtomicWrite.dfy`, `AtomicRaces.dfy` | temp-file names and their recogniser; writers in threads and processes as interleaved steps; what writers of different processes do to each other |
| `Saturation.dfy`, `TaskForest.dfy`, `TaskTimeline.dfy` | least closures; the task tree and its flattening; grouping by root chasing |
| `Frontmatter.dfy`, `FrontmatterRoundTrip.dfy` | the frontmatter printer and parser, and when one undoes the other |
| `Lifecycle.dfy`, `Kernel.dfy`, `KernelQueue.dfy`, `KernelRegistry.dfy` | lifecycle transitions; the kernel that admits and journals calls; its dispatches interleaved with each other and with closing; the registry of active kernels over constructions and closings |
| `Doorbell.dfy`, `DoorbellTime.dfy` | the ring buffer with merging of failures; when its answers are in order of time |
| `Projection.dfy`, `ReplayGaps.dfy` | the archive projection and replay closure; completing a recorded lifecycle |
| `Text.dfy`, `Sorting.dfy` | strings, stable sorting, filtering and removal of repeats |

Code that changes state is modelled by classes and loops with the same state (`Migration.Transaction`,
`FaultClusters.Fault`, `TaskForest.Forest`, `Kernel.MutationKernel`, `Doorbell.DoorbellBuffer`) and proved against
functions or predicates about which the lemmas then speak. What the environment decides (faults, clocks, random
numbers, JSON editing, the local-date key) is a parameter.

## What the proofs found

These are properties of the code as it stands; each has a lemma that says exactly when it matters.

- Replacing the absolute workspace path in task texts after the relative one does nothing, and leaves no relative
  workspace path, on all texts if and only if the slug has no dot (`MigrationPlan.AbsoluteReplacementIdleIff`). With a
  dot the replacement can leave any text at all (`MigrationPlan.DotsComeBack`), such as the path it was to remove
  (`MigrationPlan.PathReturns`).
- A workspace directory that is itself called `README.md` and stands alone can never be migrated: the config
  switch removes the whole workspace directory, and the step after it fails. If such a project is fit to start (its
  config can be read and no directory or file stands where the migration writes), a run without a fault ends rolled
  back with the config already switched (`Migration.Migrate`; `Migration.ReadmeWorkspace` is such a project).
- `workspace/README.md` is lost when the migration leaves the workspace directory otherwise empty
  (`Migration.NothingLost`).
- A fault after the config has been renamed leaves `workspace_mode` switched although the entries are moved back
  (`Migration.RollbackRestores`).
- `windowMs: 0` means 30 seconds, so raising the option from 0 to anything below 30000 can raise the number of
  faults; otherwise raising it never does (`FaultClusters.OptionMonotone`).
- The start of today can be one millisecond late and never more (`DayStart.TodayStart`, `DayStart.OneLate`).
- A group of failures sorts by the time it shows, which is the time of its latest row exactly when that row passes
  over what the earlier ones left (`FaultClusters.ShowsLatestIff`). It does if all rows have the same time properties;
  among rows without a legacy flag exactly if the last `ts` there is, if usable, is the latest time
  (`FaultClusters.UnflaggedShowsIff`). A flag on the first row hides the time of a later row without one
  (`FaultClusters.StaleFlag`).
- `skip_if_exists` keeps the target from being replaced twice if and only if all the writers share a process
  (`AtomicRaces.AtMostOneWriteIff`). A writer can raise without a failure of its own if and only if two writers of
  different processes can both get past the existence check: one sweeps the other's temp file
  (`AtomicRaces.NobodyRaisesIff`). Both breaches happen with every listing and removal succeeding, and where they are
  ruled out they are so even if listings and removals fail.
- Tasks on a parent cycle, and those below one, are absent from the tree and are groups of their own in the
  timeline (`TaskTimeline.GroupMatchesForest`).
- Frontmatter is read back as printed exactly if some field is printed, the printed keys can stand in a line and only
  the first may begin like the closing marker, no value has a line break, quote or backslash, and the body does not
  begin with white space (`FrontmatterRoundTrip.RoundTripIff`). Patching sets or removes one field of any file,
  hand-written ones included, under the same condition on what the file was read as
  (`FrontmatterRoundTrip.PatchReadsIff`); patching the last field to the empty string therefore leaves a file that is
  not read back (`FrontmatterRoundTrip.PatchRemoves`), and an indented `---key` line, which is read, cuts the block
  short once it is printed behind another field (`FrontmatterRoundTrip.MarkerCutsShort`).
- The kernel looks a task up by the prefix of its file names, so creating `TASK-10` takes `TASK-1` back to the
  inbox (`Kernel.PrefixClash`); `Kernel.WriteTaskLowersIff` says exactly when a new file lowers a task.
- The checks on a request run before the lock is taken. After `close()` a request can still be journalled if and only
  if it passed them before and was waiting or being written then (`KernelQueue.JournalsAfterCloseIff`); one request
  is enough (`KernelQueue.ClosedKernelJournals`). On given files every waiting request is settled, and journalled
  exactly if they do not forbid it (`KernelQueue.JournalledOnFilesIff`). The entries stay lawful in every interleaving
  (`KernelQueue.RunInv`).
- The registry of active kernels is to keep kernels of different modes off one root. It admits two kernels of one
  mode, and closing either takes the root off the registry; the modes are kept apart by every next step if and only
  if every open kernel is registered (`KernelRegistry.StaysExclusiveIff`), which ends exactly when a kernel is closed
  beside another one of its root (`KernelRegistry.OrphansIff`, `KernelRegistry.TwoModes`).
- The doorbell's documentation promises at most `limit` results in reverse chronological order. The limit is kept on
  every buffer exactly when it is at least 1 (`Doorbell.LimitHonouredIff`). The code orders by position in the buffer,
  so every answer is chronological exactly when the buffer ascends in time
  (`DoorbellTime.EveryAnswerChronologicalIff`). For events that arrive in order this fails exactly when a root took
  over a slot that still has an earlier row behind it (`DoorbellTime.HistoryChronologicalIff`,
  `DoorbellTime.RootInFront`); a row read from disk with an old time breaks it too (`DoorbellTime.OrderKeptIff`).
- Failure rows share a slot per incident exactly for payloads whose session id is flat and trimmed, or that name a
  root fault (`Doorbell.TwiceIsOneIff`). A root that takes over a slot drops the fault id of the row it replaces
  (`Doorbell.FoldingForgetsIff`).
- Completing a recorded lifecycle gives a contiguous walk exactly when nothing is missing or the m recorded
  last steps span at most 1200 (m + 1) ms (`ReplayGaps.ContiguousIff`).

## Model

| member | source | states |
|---|---|---|
| MigrationPlan.PlanMigration | codeflowmu-shell/src/artifact-layout.ts:180-216 | an accepted plan names the only workspace, all its entries, and for each a root path that is free and unprotected; a refusal gives its true reason, and unreadability only after a fault |
| MigrationPlan.BackupsDistinct | codeflowmu-shell/src/artifact-layout.ts:269-269 | the numbered backup names of two log entries differ, whatever the tasks are called |
| MigrationPlan.ReplaceSplitsAndJoins | codeflowmu-shell/src/artifact-layout.ts:265-267 | a replacement cuts the text at the needle into pieces free of it and joins the same pieces with the new text |
| MigrationPlan.AbsoluteReplacementIdleIff | codeflowmu-shell/src/artifact-layout.ts:261-267 | the second replacement changes no text, the first leaves no relative workspace path in any text, and neither do both together: each of the three if and only if the slug has no dot |
| MigrationPlan.DotsComeBack | codeflowmu-shell/src/artifact-layout.ts:265-267 | replacing a needle that has a dot by a dot undoes putting the needle for every dot, so it can leave any text |
| MigrationPlan.PathReturns | codeflowmu-shell/src/artifact-layout.ts:265-267 | for a slug x.y the replacement of the path in what surrounds it puts the path together again |
| MigrationLog.MoveStep | codeflowmu-shell/src/artifact-layout.ts:257-260 | renaming one more entry carries "the initial tree with the logged entries moved" to the longer log |
| MigrationLog.UnmoveStep | codeflowmu-shell/src/artifact-layout.ts:282-285 | renaming the last logged entry back carries it to the shorter log |
| MigrationLog.CommitStep | codeflowmu-shell/src/artifact-layout.ts:155-158 | the rename of the temporary config replaces the config alone and keeps everything the undo logs answer for |
| MigrationLog.RemovalKeeps | codeflowmu-shell/src/artifact-layout.ts:276-279 | removing the emptied source, or a workspace with nothing but a readme, even part-way, takes away nothing the undo logs answer for |
| MigrationLog.ActiveTaskFiles | codeflowmu-shell/src/artifact-layout.ts:218-236 | the active task files, each once, no other file; it fails only on a fault or if a task directory is a file |
| Migration.Transaction.MoveEntries | codeflowmu-shell/src/artifact-layout.ts:257-260 | all entries end up moved and logged, or a fault struck; after either the logs can undo the work |
| Migration.Transaction.RewriteTask | codeflowmu-shell/src/artifact-layout.ts:263-274 | one task is backed up, logged and rewritten, if its text changes at all; whatever a failed write leaves, the logs can undo it |
| Migration.Transaction.RewriteTasks | codeflowmu-shell/src/artifact-layout.ts:261-274 | every active task holds its rewritten text and the counter equals the number of texts that changed |
| Migration.Transaction.SwitchConfig | codeflowmu-shell/src/artifact-layout.ts:150-169 | on success the config holds the switched text; a workspace directory left behind means only the source remains to be removed |
| Migration.Transaction.RemoveSource | codeflowmu-shell/src/artifact-layout.ts:276-279 | on success the tree is the finished one; with the workspace directory present only a fault makes it fail |
| Migration.Transaction.Attempt | codeflowmu-shell/src/artifact-layout.ts:256-279 | the try block finishes the tree and counts, or leaves a state the logs can undo; on a ready project it fails only through a fault |
| Migration.Transaction.Rollback | codeflowmu-shell/src/artifact-layout.ts:280-287 | the catch block restores the initial tree, except for scratch files and a config already switched, unless a new fault strikes |
| Migration.Migrate | codeflowmu-shell/src/artifact-layout.ts:238-305 | each outcome for every script of faults: rejected leaves the tree alone; migrated gives the finished tree and the two true counts; rolled back gives the initial tree, with the config switched exactly if the run had performed its rename; an unfinished rollback implies a fault after the catch block began; a planned and ready project is migrated unless a fault strikes, and one whose only workspace is called README.md is then rolled back after the switch |
| Migration.RollbackRestores | codeflowmu-shell/src/artifact-layout.ts:280-287 | after a rollback every moved entry and every active task file is as before; the config too unless its rename had been performed (the flag, which Migrate ties to the rename), else it is the switched one |
| Migration.ReadmeWorkspace | codeflowmu-shell/src/artifact-layout.ts:150-169 | there is a sound plan, ready to start, whose only workspace is called README.md |
| Migration.NothingLost | codeflowmu-shell/src/artifact-layout.ts:238-305 | after a migration every project file is at its destination with its text, rewritten only if it is an active task; only the workspace readme of an emptied workspace is gone |
| Migration.DestinationsApart | codeflowmu-shell/src/artifact-layout.ts:196-206 | two files of the old tree never end up at one path |
| Migration.NothingInvented | codeflowmu-shell/src/artifact-layout.ts:238-305 | every file of the finished tree is the destination of a file of the old tree |
| FaultClusters.Cluster | codeflowmu-desktop/panel/log-center-core.js:291-366 | two rows of the sorted input share a group exactly when they are linked: equal call keys, or equal bases with every gap between consecutive rows known and within the window; each group holds exactly its rows in order |
| FaultClusters.AggregateFailures | codeflowmu-desktop/panel/log-center-core.js:291-366 | the same for unsorted input, groups in descending order of the time each shows; that is the time of the group's latest row exactly when that row passes, so the groups descend by their latest rows if all of those pass, as they do when all rows have the same time properties; the raw events are exactly the input rows; the number of faults is the declarative count |
| FaultClusters.MergeTellsIff | codeflowmu-desktop/panel/log-center-core.js:347-359 | a row not older than what a group shows becomes the group's time exactly when it resets a set flag and replaces an older ts |
| FaultClusters.ShowsLatestIff | codeflowmu-desktop/panel/log-center-core.js:330-365 | after all its rows a group shows the time of the last one exactly when that one is not older than what the earlier ones left and passes over it |
| FaultClusters.UnflaggedShowsIff | codeflowmu-desktop/panel/log-center-core.js:330-365 | without legacy flags, a group shows the time of its latest row exactly when the last ts among its rows is that time, is no number, or there is none |
| FaultClusters.TellsIff | codeflowmu-desktop/panel/log-center-core.js:330-365 | a group shows the time of the current row after every single row exactly when each row passes over what the earlier ones left |
| FaultClusters.UniformPasses | codeflowmu-desktop/panel/log-center-core.js:330-365 | rows that carry the same time properties all pass |
| FaultClusters.StaleFlag | codeflowmu-desktop/panel/log-center-core.js:330-365 | two rows of one call, the later one with a known time, whose group sorts as if its time were unknown |
| FaultClusters.OpeningsCount | codeflowmu-desktop/panel/log-center-core.js:300-352 | the groups the one-pass rule opens number the distinct calls, the untimed rows and the instants at which a window fault starts |
| FaultClusters.FaultCountPermuted | codeflowmu-desktop/panel/log-center-core.js:291-366 | the number of faults does not depend on the order of the input |
| FaultClusters.WiderWindow | codeflowmu-desktop/panel/log-center-core.js:291-366 | a wider window never gives more faults |
| FaultClusters.OptionMonotone | codeflowmu-desktop/panel/log-center-core.js:291-293 | raising the option never gives more faults for any input exactly when it does not go from 0 to below the default |
| FaultClusters.CallKeysSeparate | codeflowmu-desktop/panel/log-center-core.js:300-330 | call keys are equal exactly when session, call, status and code are, if the first three have no colon |
| FaultClusters.CalculateStats | codeflowmu-desktop/panel/log-center-core.js:368-388 | errors is the declarative fault count, warnings the WARN rows, raw events the rows, today's events the rows with a known time on today's date, startup events those with a known time not before the process start |
| Calendar.FieldsOfUtc | codeflowmu-desktop/panel/log-center-core.js:66-117 | the fields of the instant of a real date and time are that date and time |
| Calendar.UtcOfFields | codeflowmu-desktop/panel/log-center-core.js:19-39 | every instant has real fields, and they give the instant back |
| Calendar.OverlongDayIsCaught | codeflowmu-desktop/panel/log-center-core.js:95-102 | a day beyond the end of its month comes back as another day |
| LegacyTime.AcceptedIffReal | codeflowmu-desktop/panel/log-center-core.js:66-117 | with an explicit offset, well-shaped text is accepted exactly when it names a real date and time from 1970 on, and the instant has those local fields |
| LegacyTime.ParseUndoesFormat | codeflowmu-desktop/panel/log-center-core.js:19-117 | parsing the date and time parts of a formatted instant gives the same millisecond, for every offset and local years 1970 to 9999 |
| LegacyTime.OffsetReads | codeflowmu-desktop/panel/log-center-core.js:27-38 | the sign, hours and minutes printed after the instant say the offset it was printed with |
| DayStart.TodayStart | codeflowmu-desktop/panel/log-center-core.js:246-258 | today has a first instant, and the search ends on an instant of today at most 1 ms after it |
| DayStart.OneLate | codeflowmu-desktop/panel/log-center-core.js:252-256 | on a day that began 2 ms ago it ends exactly 1 ms late |
| TempNames.IsStaleTmpMeans | fcop_sdk/atomic_write.py:36-47 | the recogniser accepts exactly the plain temp name and the names of the generator's shape |
| TempNames.RecogniserExact | fcop_sdk/atomic_write.py:27-47 | a generated name is accepted for its own target and for one other only: the target called like the name without ".tmp" |
| TempNames.PidsTellNamesApart | fcop_sdk/atomic_write.py:27-33 | generated names for one target are equal only if pid, stamp and random part are |
| AtomicWrite.StepInv | fcop_sdk/atomic_write.py:66-99 | every step of every writer, a sweep, a failure or the death of a process keeps the protocol's invariant |
| AtomicWrite.TargetIsWhole | fcop_sdk/atomic_write.py:66-99 | in every interleaving the target holds its initial state or the complete content of the last writer that replaced it |
| AtomicWrite.OutcomeTellsReplacement | fcop_sdk/atomic_write.py:66-99 | a writer that returned "written" replaced the target exactly once, one that raised or did nothing never did |
| AtomicWrite.InFlightApart | fcop_sdk/atomic_write.py:17-33 | two writers past the lock are in different processes and use different temp files, without help from randomness |
| AtomicWrite.ExactlyOneWrites | fcop_sdk/atomic_write.py:79-99 | of any number of skipping writers in one process, absent failures, exactly one writes and the others do nothing |
| AtomicWrite.FirstContentStays | fcop_sdk/atomic_write.py:79-99 | and the content never changes afterwards |
| AtomicRaces.AtMostOneWriteIff | fcop_sdk/atomic_write.py:66-99 | for every world of skipping writers on an absent target and every directory: no run replaces the target twice if and only if all writers are in one process, both for runs in which listings and removals may fail and for runs in which nothing fails |
| AtomicRaces.RivalsBothWrite | fcop_sdk/atomic_write.py:79-99 | any two writers of different processes that can get past the check both write in some run in which nothing fails, from every directory and beside any other writers |
| AtomicRaces.TwoProcessesBothWrite | fcop_sdk/atomic_write.py:79-81 | a run without any failure in which skipping writers of two processes both write |
| AtomicRaces.NobodyRaisesIff | fcop_sdk/atomic_write.py:50-98 | for every world and directory: no run has a writer that raises without an exception of its own if and only if no two writers of different processes can both get past the check, both for runs in which listings and removals may fail and for runs in which nothing fails |
| AtomicRaces.RivalRaises | fcop_sdk/atomic_write.py:50-98 | of any two such writers one raises in some run in which nothing else fails, after the other's complete sweep, from every directory |
| AtomicRaces.SweptWriterRaises | fcop_sdk/atomic_write.py:50-98 | a run in which a complete sweep removes another process's temp file and that writer raises |
| Saturation.LeastIsReachable | codeflowmu-desktop/mobile/mobile.js:1782-1810 | a least closed set is exactly what chains of edges reach from the seeds |
| TaskForest.ExpandTasks | codeflowmu-desktop/mobile/mobile.js:1782-1810 | the loop ends with the visible tasks first and then, each once, the least set closed under child-of |
| TaskForest.Forest.BuildTree | codeflowmu-desktop/mobile/mobile.js:1825-1849 | linking and in-place sorting give the roots and, below every node reached from them, its children by sequence number |
| TaskForest.PreorderFlattens | codeflowmu-desktop/mobile/mobile.js:1850-1858 | the preorder of sorted siblings lists what lies below them, each once, with true depths, contiguous subtrees and siblings in order |
| TaskForest.ShowTasks | codeflowmu-desktop/mobile/mobile.js:1825-1858 | the flat list holds exactly the ids whose parent chain ends, each once, at the depth that counts their ancestors, every subtree contiguous |
| TaskForest.ShownAreVisibleAndDescendants | codeflowmu-desktop/mobile/mobile.js:1782-1858 | after the closure, on acyclic input, the list holds exactly the visible ids and their descendants |
| TaskForest.DepthBound | codeflowmu-desktop/mobile/mobile.js:1850-1858 | a depth is smaller than the number of tasks |
| TaskTimeline.RootFor | codeflowmu-desktop/mobile/mobile.js:1884-1896 | root chasing ends, at the last ancestor or, on an endless chain, at the task itself |
| TaskTimeline.DepthFor | codeflowmu-desktop/mobile/mobile.js:1898-1911 | the depth is the number of ancestors capped at 8, and 0 on an endless chain |
| TaskTimeline.NodesSorted | codeflowmu-desktop/mobile/mobile.js:1923-1931 | the nodes of a group are sorted: the root, then by time, then by id |
| TaskTimeline.RootFirst | codeflowmu-desktop/mobile/mobile.js:1923-1927 | a group that holds its root lists it first |
| TaskTimeline.BuildGroups | codeflowmu-desktop/mobile/mobile.js:1875-1943 | one group for each root, with exactly its tasks, sorted, with depths; newest root first |
| TaskTimeline.InExactlyOneGroup | codeflowmu-desktop/mobile/mobile.js:1913-1918 | whatever the links, every task with an id is in one group and no other |
| TaskTimeline.GroupMatchesForest | codeflowmu-desktop/mobile/mobile.js:1825-1943 | a group is the tree of its root in the flat list, with depths capped at 8; a group whose root the list leaves out is that one id |
| TaskTimeline.TreeHasGroup | codeflowmu-desktop/mobile/mobile.js:1825-1943 | every root of the flat list has its group |
| Frontmatter.SerializeFrontmatter | fcop_sdk/protocol.py:118-130 | the line-by-line printer computes the printed text about which the round trip speaks |
| Frontmatter.ParseFrontmatter | fcop_sdk/protocol.py:83-103 | the line-by-line reader computes the parse about which the round trip speaks |
| FrontmatterRoundTrip.ParseOfSerialize | fcop_sdk/protocol.py:83-130 | reading printed single-line fields gives back what stands between the quotes, escapes included, and the body without leading white space |
| FrontmatterRoundTrip.ParsedValuesAreOneLine | fcop_sdk/protocol.py:83-103 | no value that is read holds a line break |
| FrontmatterRoundTrip.EmptyNeverReads | fcop_sdk/protocol.py:11-130 | a dict without a printed field is never read back with its body |
| FrontmatterRoundTrip.RoundTripIff | fcop_sdk/protocol.py:83-130 | parse undoes serialize for a dict without lists exactly when a field is printed, a line can spell every printed key, no printed key but the first begins like the closing marker, all values survive quoting and the body does not begin with white space |
| FrontmatterRoundTrip.ParsedKeysAreKeys | fcop_sdk/protocol.py:83-103 | every key that is read, from any file, is one a line can spell |
| FrontmatterRoundTrip.MarkerCutsShort | fcop_sdk/protocol.py:83-130 | a later printed key that begins like the closing marker is taken for it, and fewer fields are read back |
| FrontmatterRoundTrip.FcopFile.PatchField | fcop_sdk/protocol.py:133-157 | the file becomes the printed form of its parse with one field set; a missing file is an error and stays missing |
| FrontmatterRoundTrip.PatchReadsIff | fcop_sdk/protocol.py:83-157 | a patch of any file by any key and any value but a list reads back as intended exactly when something is left to print with no later key like the closing marker, the other fields and the body come through, and a new value survives quoting under a key a line can spell |
| FrontmatterRoundTrip.PatchSets | fcop_sdk/protocol.py:154-157 | patching any file and reading it gives the same body and fields with that one set, exactly when the body does not begin with white space, every other field is non-empty and survives quoting, so does the new value, a line can spell the key, and no later key is like the closing marker |
| FrontmatterRoundTrip.PatchRemoves | fcop_sdk/protocol.py:118-157 | patching any file with the empty string or None removes the field, read back exactly when the rest comes through, another field is left and no later key is like the closing marker |
| FrontmatterRoundTrip.PutGets | fcop_sdk/protocol.py:156-156 | setting a field changes what is found under its key only |
| FrontmatterRoundTrip.WithoutGets | fcop_sdk/protocol.py:120-122 | removing a field hides its key only |
| Lifecycle.ValidatesIff | fcop_sdk/protocol.py:19-61 | on stage names the check accepts exactly the legal steps and staying put |
| Lifecycle.ReachableIffRank | fcop_sdk/protocol.py:19-61 | a walk of accepted steps leads from one stage to another exactly when the rank does not fall |
| Kernel.MutationKernel.Open | fcop_sdk/kernel.py:54-77 | a kernel is made exactly when all required paths exist, the mode is supported, in any case and with spaces around, and the root is not registered for another mode; its root is then registered for its mode, and otherwise nothing changes |
| Kernel.MutationKernel.Close | fcop_sdk/kernel.py:144-149 | the first close takes the root off the registry, later ones change nothing |
| KernelRegistry.StaysExclusiveIff | fcop_sdk/kernel.py:144-216 | from a state where open kernels of one root have one mode, every next step keeps it so if and only if every open kernel is registered |
| KernelRegistry.OrphansIff | fcop_sdk/kernel.py:144-216 | a step leaves an open kernel unregistered if and only if it closes another one of its root |
| KernelRegistry.LoneClosesKeepApart | fcop_sdk/kernel.py:144-216 | over every run whose closes leave no kernel of the same root open, the modes of a root are kept apart |
| KernelRegistry.TwoModes | fcop_sdk/kernel.py:144-216 | two native kernels, a close and an mcp kernel leave two modes open on one root |
| Kernel.MutationKernel.ValidateRuntimeRequest | fcop_sdk/kernel.py:151-187 | a request is refused exactly when it is not admissible, and a closed kernel says so first |
| Kernel.ResolveTaskStage | fcop_sdk/kernel.py:189-197 | the first stage in directory order that holds a file of the task |
| Kernel.MutationKernel.Commit | fcop_sdk/kernel.py:93-123 | the verdict under the lock; an accepted entry, and nothing else, is appended, and the journal stays lawful: a known stage and a target other than the inbox make a legal or a self-step |
| Kernel.MutationKernel.Dispatch | fcop_sdk/kernel.py:79-123 | checks and verdict together when nothing comes between them: what is not admissible is refused and the journal only grows by accepted entries |
| Kernel.MutationKernel.Judge | fcop_sdk/kernel.py:93-120 | the verdict on a request that passed the checks earlier, whatever happened in between |
| KernelQueue.RunInv | fcop_sdk/kernel.py:79-150 | in every interleaving of arrivals, the queue at the lock, writing and closing, each journalled entry is lawful, answers a request admitted while the kernel was open, and is its only one |
| KernelQueue.JournalsAfterCloseIff | fcop_sdk/kernel.py:79-150 | from a closed kernel on, a request not yet journalled can still be journalled if and only if it was admitted before and waits for the lock or for its entry to be written |
| KernelQueue.VerdictExists | fcop_sdk/kernel.py:93-120 | an admissible request has a verdict on all files: refusal if they forbid it, acceptance otherwise |
| KernelQueue.PendingSettles | fcop_sdk/kernel.py:79-150 | on any files, every pending request leaves the queue in some run, journalled exactly if it had its verdict already or the files do not forbid it |
| KernelQueue.JournalledOnFilesIff | fcop_sdk/kernel.py:79-150 | with all verdicts taken on given files, an admitted request can be journalled if and only if its entry is being written or it waits and the files do not forbid it |
| KernelQueue.ClosedKernelJournals | fcop_sdk/kernel.py:79-150 | any admissible request, a close while its entry is being written, and the entry in the journal of the closed kernel |
| Kernel.DecidesOnce | fcop_sdk/kernel.py:93-123 | a request has one verdict on given files |
| Kernel.OnlyModelsMoveTasks | fcop_sdk/kernel.py:46-187 | a journalled lifecycle call never comes from a native kernel, a native driver or a Cursor caller, and names a task |
| Kernel.ChangeKeepsRank | fcop_sdk/kernel.py:93-123 | moving files of any task along an accepted step lowers the rank of no task |
| Kernel.RankNeverFalls | fcop_sdk/kernel.py:79-123 | over every run in which no WRITE_TASK creates a file its pattern matches, a task stays found, its rank never falls and history is absorbing |
| Kernel.WriteTaskLowersIff | fcop_sdk/kernel.py:98-103 | an accepted WRITE_TASK lowers a task's rank exactly when a new file matches its pattern and it was past the inbox |
| Kernel.PrefixClash | fcop_sdk/kernel.py:189-197 | creating one task takes another, finished one back to the inbox because its id is a prefix |
| Doorbell.KeysAgreeIff | codeflowmu-shell/src/doorbell-buffer.ts:233-265 | the key of an arriving payload is the key it is later found under exactly for the coherent payloads |
| Doorbell.DoorbellBuffer.FindFailureIndex | codeflowmu-shell/src/doorbell-buffer.ts:249-267 | the backwards search finds the last failure row with the key |
| Doorbell.LastMatchIsLast | codeflowmu-shell/src/doorbell-buffer.ts:249-267 | no later row has the key |
| Doorbell.DoorbellBuffer.Push | codeflowmu-shell/src/doorbell-buffer.ts:161-165 | the buffer stays the last max slots of the log of slots; a buffered kind updates or adds a slot, another kind changes nothing |
| Doorbell.DoorbellBuffer.HydrateFromDisk | codeflowmu-shell/src/doorbell-buffer.ts:171-183 | the same, with the stored time if there is one |
| Doorbell.DoorbellBuffer.Upsert | codeflowmu-shell/src/doorbell-buffer.ts:269-322 | a failure whose key is still buffered updates that slot in place; anything else adds a slot, dropping the oldest when full |
| Doorbell.ReplayGrows | codeflowmu-shell/src/doorbell-buffer.ts:269-322 | no event removes a slot and each adds at most one |
| Doorbell.OneRowPerKey | codeflowmu-shell/src/doorbell-buffer.ts:249-322 | after any events with coherent failure payloads, no two buffered failure rows share a key |
| Doorbell.TwiceIsOneIff | codeflowmu-shell/src/doorbell-buffer.ts:233-322 | a failure reported twice takes one row exactly when its payload is coherent and has a key |
| Doorbell.RootStays | codeflowmu-shell/src/doorbell-buffer.ts:303-315 | over any events a slot that shows a root row keeps it, only folding later failures in and forgetting none of them |
| Doorbell.FoldingForgetsIff | codeflowmu-shell/src/doorbell-buffer.ts:281-315 | folding records the arriving fault id and forgets a recorded one exactly when a root takes over a slot whose own id is not known otherwise |
| Doorbell.AnswerIsNewestFirst | codeflowmu-shell/src/doorbell-buffer.ts:190-229 | with a limit of at least 1 the answer is the last wanted rows, last one first, and the total counts all wanted rows |
| DoorbellTime.EveryAnswerChronologicalIff | codeflowmu-shell/src/doorbell-buffer.ts:190-229 | every query is answered in reverse chronological order if and only if the buffer ascends in time |
| DoorbellTime.OrderKeptIff | codeflowmu-shell/src/doorbell-buffer.ts:171-322 | an event leaves an ascending buffer ascending exactly when its time fits where its row ends up, at the end or in the slot it takes over |
| DoorbellTime.HistoryChronologicalIff | codeflowmu-shell/src/doorbell-buffer.ts:161-322 | for any events in order of time, every query is answered in reverse chronological order if and only if no root took over a slot that still has an earlier row behind it |
| DoorbellTime.RootInFront | codeflowmu-shell/src/doorbell-buffer.ts:303-315 | a derived failure, a status and the root failure, in order of time, give an answer out of order |
| Doorbell.LimitHonouredIff | codeflowmu-shell/src/doorbell-buffer.ts:222-226 | the answer is within the limit on every buffer exactly when the limit is at least 1 |
| Projection.RebuildThreadScopes | codeflowmu-desktop/panel/home-reactor.js:542-588 | the projected tasks are the least set with the members of archived threads that is closed under child-of, all in the archive bucket |
| Projection.ProjectedScope | codeflowmu-desktop/panel/home-reactor.js:542-643 | a task is shown as archived when a chain of children leads to it from a member of an archived thread; every other task keeps its own scope |
| Projection.CollectReplayTaskIds | codeflowmu-desktop/panel/home-reactor.js:1304-1332 | the loops end with the least set that contains the seeds and is closed under child-of and shared thread |
| ReplayGaps.StandardIsRead | codeflowmu-desktop/panel/home-reactor.js:1518-1546 | an event with the type and stages of a standard step is read as that step |
| ReplayGaps.ExpandLifecycleGaps | codeflowmu-desktop/panel/home-reactor.js:1412-1440 | the loops compute the completed chain about which the next lemmas speak |
| ReplayGaps.FilledCovers | codeflowmu-desktop/panel/home-reactor.js:1412-1440 | every recorded event is kept and every standard step up to the target is there |
| ReplayGaps.FilledTwice | codeflowmu-desktop/panel/home-reactor.js:1412-1440 | completing a completed chain changes nothing |
| ReplayGaps.FilledInterleaves | codeflowmu-desktop/panel/home-reactor.js:1425-1440 | the result ascends in time and interleaves the recorded events in their order with the inferred ones by stage |
| ReplayGaps.ContiguousIff | codeflowmu-desktop/panel/home-reactor.js:1412-1440 | behind m recorded last steps the result is the whole walk exactly when nothing is missing or they span at most 1200 (m + 1) ms |
| ReplayGaps.MergeReplayTimeline | codeflowmu-desktop/panel/home-reactor.js:1463-1474 | the loop sorts, keeps the first event of each key and cuts to the cap |
| ReplayGaps.MergedTimeline | codeflowmu-desktop/panel/home-reactor.js:1463-1474 | the merged timeline ascends, shows each key once by an earliest event, and before the cut shows the keys of both inputs exactly |
| Sorting.WhereOfSort | codeflowmu-desktop/panel/home-reactor.js:1438-1439 | a stable sort and a filter commute |

## Left out

- Texts picked out by regular expressions (task, parent, error-code and call ids, collation ranks, thread ids) are
  fields of the modelled rows; the bounded nested search for them is not modelled.
- The displayed fields of a fault group other than its time, the row it shows, its level and its rows.
- Time stamps that are not integers or not numbers, and the branch of the date parser that asks the run-time
  environment for the local zone.
- `DayStart.TodayStart`: the local-date key is a monotone function that has changed within the last 36 hours; the
  time-zone data behind it is not modelled.
- `AtomicWrite.ExactlyOneWrites`: for writers of one process without failures, as the lock is per process.
- Unicode digits in temp names, letter case outside ASCII, and the text-mode translation of line ends.
- Floating-point values in frontmatter, and reading or writing of lists beyond printing them.
- Glob metacharacters in task ids, symbolic links, alternative spellings of one path, and the durability of fsync.
- JSON parsing and printing of the config: one function from the old text to the new text, or to failure.
- `Kernel.MutationKernel.Open`: the creation of the kernel directory; the registry is changed in one step, as under its lock.
- `Kernel.MutationKernel.Dispatch`: one uninterrupted call; the interleavings are those of `KernelQueue`.
- The kernel's journalled results, leases and the drivers that apply an accepted call: a run moves
  files as the journal says.
- `Doorbell.DoorbellBuffer.Push`: the extraction of tool names, argument previews, status and duration is not
  modelled, nor that a query returns references to the buffered rows.
- The report pass of the archive projection, bucket counting and health statistics: one-pass sums.
- The grouping of replay events by task and the choice of the target stage before gap filling.
- Planning-mode inference, configuration merging and the user interface.
