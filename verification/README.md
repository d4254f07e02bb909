# Verified models of the Gardener Prow tools

This project models the stateful core of seven tools of the `gardener/ci-infra` repository in Dafny and
proves what they promise. `dafny verify dfyconfig.toml` checks everything.

| part | files | what it is about |
|---|---|---|
| image-builder | `BuildMachine`, `BuildSafety`, `BuildTheorems`, `BuildController`, `BuildOrder`, `BuildLimits` | a reconcile loop that builds images in ordered groups of pods and sees the cluster only through a stale cache |
| milestone-activator | `MilestoneActivator`, `MilestoneLaws`, `MilestoneFiles`, `Text` | recognising marked sections in files and commenting or uncommenting their lines |
| cherrypicker | `CherryPickLocks`, `CherryPickDispatch`, `ReleaseNotes`, `ReleaseNoteLaws` | two-level locking, dispatch of requests over nested maps, and the normal form of release notes |
| job-forker | `JobForking`, `JobForker` | forking annotated jobs per release branch into a directory, and removing orphaned files |
| peribolos-checkconfig | `Collections`, `OrgTeams`, `OrgChecker` | checking an organisation's configuration by a walk over its team tree |
| owners-aliases-bumper | `OrgTeams`, `Sorting`, `AliasSync`, `PullRequests` | syncing OWNERS_ALIASES with the team tree, and keeping exactly one pull request for that |
| branch-cleaner | `Sorting`, `BranchRanking`, `BranchCleaner` | ranking release branches and deleting the old ones |

Code that works step by step is modelled by methods and classes (`BuildReconciler`, `FileSystem`,
`Directory`, `TeamWalkState`, `OrgAliases`, `Hub`, `Cleaner`, ...). Each method is proved against a
specification: a state machine, a value function, or a declarative predicate. The lemmas are about those
specifications. Maps and sets of Go are visited by choosing an arbitrary remaining element, so every
contract holds for every iteration order.

## The image-builder controller

`BuildMachine` describes one atomic step per access of the reconcile loop to the cluster, with arbitrary
cluster activity between any two of them, in particular between the List of a reconcile and each of its
Creates. `BuildReconciler` is the controller in the source's form; it keeps a ghost history, and every
method is proved to extend that history by steps of the machine only, so a theorem about all runs of the
machine holds for every sequence of `Reconcile` calls. The environment is assumed to behave as follows;
the theorems are false without these assumptions. `BuildLimits` shows two runs of a wider environment, from
the initial state on, in which one of the assumptions does not hold and a theorem fails.

- One worker reconciles at a time (the default of the controller runtime).
- The names of the defined pods are pairwise distinct. Joining variant and target with a dash can collide
  (`CollidingNamesAreSkipped`), and long names keep only a few digits of a hash.
- Nothing else creates the build pods, and no pod is ever deleted.
- Phases only advance from pending over running to succeeded or failed. A pod in phase `Unknown` counts
  neither as running nor as failed (`UnknownPhaseBreaksBarrier`).
- The pod returned by a successful create request is pending.
- The cached view never goes backwards. A create request may fail although the pod was created, and
  collecting logs may fail at any time.

No pod is created once the controller has stopped with the verdict of success or of failed pods. After a
stop caused by too many errors, whatever the last error was, a later reconcile can still create pods
(`VerdictEndsCreationIff`).

## The other tools

- **milestone-activator.** A file is a sequence of lines. A section line shorter than the section's offset
  can make the slices of the source panic; the model returns `OutOfRange` instead. The laws are equivalences
  with conditions on the lines of the input, for lines that reach the offset or not, with or without text
  before it: which lines turn into markers (`Turns`), on which a second run has nothing to do (`Settles`), and
  which a round trip restores (`Restored`, `Reactivated`). For indented lines the conditions become simple
  (`IndentedIsRestored`, `CommentedOnceIsReactivated`, `OnlyCommentedMarkersTurn`).
- **cherrypicker.** The commands found in a comment are given. Calls of `handle` are processes that share
  a map lock, a table of request locks and the locks themselves; any schedule is allowed. The release-note
  expression is modelled by the deterministic parser it amounts to. Among bodies whose notes have tidy headers
  (no white space that the expression lets pass but that is trimmed, such as a no-break space) the normal
  form fails exactly for those with a note whose text is blank. `BlankNoteExists` is such a body;
  `BlankNoteIsLost` and `BlankNoteTakesNextFence` show both ways in which it fails.
- **job-forker.** The annotation map of a loaded job is shared by all copies of the job and is destroyed by
  the generators; the model has it on the heap. The run converges iff no file that has to be kept looks
  like an orphan of some handled repository, for instance because one repository's dashed name is a
  prefix of another's, or because a branch name contains a slash (`SlashedBranchLosesRepo`). Live branches that share a file
  (`SharedTarget`) are complete with the one file that the first of them wrote.
- **peribolos-checkconfig.** The rules are stated over places in the team tree (paths of team names); the
  walk is proved to decide them.
- **owners-aliases-bumper.** Login normalisation is a given function of which only this is used: applied to
  its own result it changes it only by making it shorter. GitHub's own has that property, although it is
  not idempotent on logins with two leading `@` (`NormLoginSettles`, `NormLoginIsStableIff`). Files in which
  two keys are the same alias, or one is the normalised form of another, are excluded, because what the
  owners parser makes of them depends on the order of a Go map.
- **branch-cleaner.** The documentation calls the order alphabetical. The code compares major versions as
  strings and minor versions as numbers, which is what is modelled; `RankingIsNumericIff` says when that is
  the numeric order. A matching name without a dot crashes the sort as soon as two branches match.

## Model

| member | source | states |
|---|---|---|
| `BuildController.BuildReconciler.Reconcile` | prow/cmd/image-builder/buildcontroller.go:135-180 | a call for another pod does nothing; any other call appends exactly one complete reconcile of the state machine to the history, however the cluster interferes, and counts an error iff it returns one |
| `BuildController.BuildReconciler.Attempt` | prow/cmd/image-builder/buildcontroller.go:159-179 | the reconcile proper makes only steps of the machine and returns the error of the step that failed |
| `BuildController.BuildReconciler.Stop` | prow/cmd/image-builder/buildcontroller.go:182-190 | the first stop latches the verdict, later ones change nothing |
| `BuildController.BuildReconciler.EnsureBuildPodDefinition` | prow/cmd/image-builder/buildcontroller.go:192-222 | the pods are those that the options ask for, defined once; a failed definition leaves none behind |
| `BuildController.BuildReconciler.DefineBuildPods` | prow/cmd/image-builder/buildcontroller.go:264-312 | on success the list is the clonerefs pod followed by all targets of all variants, in order, with their groups |
| `BuildController.BuildReconciler.ReconcileBuildPods` | prow/cmd/image-builder/buildcontroller.go:683-741 | listing, collecting, deciding and starting are steps of the machine even when the cluster moves in between |
| `BuildController.BuildReconciler.CollectStatus` | prow/cmd/image-builder/buildcontroller.go:697-717 | one listed pod is counted as running or failed and its phase is tracked; only the logs of a newly ended pod can fail, and then nothing is tracked; the logs of every pod tracked as ended have been saved |
| `BuildController.BuildReconciler.ContinueBuild` | prow/cmd/image-builder/buildcontroller.go:719-738 | without running pods the controller stops if one failed, complains if one is missing, and otherwise starts pods; it stops with success iff nothing was left to start |
| `BuildController.BuildReconciler.WhichPodShouldRun` | prow/cmd/image-builder/buildcontroller.go:743-751 | exactly the tracked pods believed to be pending or running, for every map order |
| `BuildController.BuildReconciler.StartNextBuildPods` | prow/cmd/image-builder/buildcontroller.go:785-818 | it ends at a group boundary or the end of the list, or with the first refused create request |
| `BuildController.BuildReconciler.CreatePod` | prow/cmd/image-builder/buildcontroller.go:805-814 | a pod is tracked iff its creation was acknowledged; an acknowledged one exists, a refused one may |
| `BuildController.DefinitionIsWellFormed` | prow/cmd/image-builder/buildcontroller.go:264-312 | distinct names are all that a definition needs to be usable |
| `BuildController.GroupsOrderTheBuild` | prow/cmd/image-builder/buildcontroller.go:286-309 | the definition has a group boundary between clonerefs and every target, and with a cache between a variant's first target and its others |
| `BuildController.DefinitionAt` | prow/cmd/image-builder/buildcontroller.go:264-312 | the name and the group of the pod at every position: the target of a variant stands at 1 + variant × number of targets + target, joined to its variant by a dash; only a variant's first target with a cache has the variant's cache group |
| `BuildController.TargetsShareAGroup` | prow/cmd/image-builder/buildcontroller.go:297-305 | with a cache no group boundary separates a variant's targets other than its first |
| `BuildController.AllShareAGroup` | prow/cmd/image-builder/buildcontroller.go:297-305 | without a cache no group boundary separates any two targets of any variants |
| `BuildController.CachesAreApart` | prow/cmd/image-builder/buildcontroller.go:297-305 | with a cache the first targets of two different variants are in different groups |
| `BuildOrder.HistoryHasDefinition` | prow/cmd/image-builder/buildcontroller.go:192-222 | at every point of every history the pods, once there, are those that the options ask for |
| `BuildOrder.TargetsWait` | prow/cmd/image-builder/buildcontroller.go:785-818 | in every history a target's pod comes into existence only after the clonerefs pod has succeeded and, with a cache, after the variant's first target has |
| `BuildSafety.StepKeepsInv` | prow/cmd/image-builder/buildcontroller.go:135-190 | every step keeps the invariant that relates defined pods, tracked phases, cached view and cluster |
| `BuildSafety.RunKeepsInv` | prow/cmd/image-builder/buildcontroller.go:683-741 | the invariant holds in every state of every run |
| `BuildTheorems.GroupBarrier` | prow/cmd/image-builder/buildcontroller.go:785-818 | whenever a pod comes into existence, it is the next defined one and every pod before an earlier group boundary has really succeeded |
| `BuildTheorems.CreatedOnceInOrder` | prow/cmd/image-builder/buildcontroller.go:705-716 | created pods are a duplicate-free prefix of the definition; the tracked ones are that prefix or all but its last |
| `BuildTheorems.NoFalseSuccess` | prow/cmd/image-builder/buildcontroller.go:730-737 | a success verdict implies that every defined pod exists and has succeeded |
| `BuildTheorems.FailureHasReason` | prow/cmd/image-builder/buildcontroller.go:145-156 | a failure verdict implies a really failed pod or six reconciles that ended in an error |
| `BuildTheorems.VerdictIsFinal` | prow/cmd/image-builder/buildcontroller.go:182-190 | the verdict never changes, and after success or after failed pods nothing is created any more |
| `BuildTheorems.FailedVerdictIsDoomed` | prow/cmd/image-builder/buildcontroller.go:719-724 | while the verdict is that pods failed, a failed pod exists that no reconcile gets past |
| `BuildTheorems.FailureContainment` | prow/cmd/image-builder/buildcontroller.go:697-733 | once a pod has failed, no reconcile that starts later creates a pod, whatever the cache shows |
| `BuildTheorems.StepPaysForItself` | prow/cmd/image-builder/buildcontroller.go:143-179 | a reconcile that does not wait uses up a pod to start, an error slot, or the cancellation |
| `BuildTheorems.TerminationBound` | prow/cmd/image-builder/buildcontroller.go:143-179 | with n defined pods at most n + 6 reconciles do anything but wait, the cancelling one included |
| `BuildLimits.StoppedControllerCanCreate` | prow/cmd/image-builder/buildcontroller.go:150-154 | for every error other than failed pods a run that stops with it and creates a pod afterwards |
| `BuildLimits.VerdictEndsCreationIff` | prow/cmd/image-builder/buildcontroller.go:182-190 | a verdict rules out later creation in every run iff it is success or failed pods |
| `BuildLimits.UnknownPhaseBreaksBarrier` | prow/cmd/image-builder/buildcontroller.go:698-703 | a run with a pod of unknown phase in which the next group is started although that pod has not succeeded |
| `BuildLimits.CollidingNamesAreSkipped` | prow/cmd/image-builder/buildcontroller.go:393-398 | a run for two variants and two targets with colliding joined names: one of five builds never happens and success is reported |
| `MilestoneActivator.FindSectionsInFile` | prow/cmd/milestone-activator/activator.go:126-169 | accepts exactly the well-bracketed files, says whether there is a section, and otherwise reports the first offending line |
| `MilestoneActivator.FindsIsDeterministic` | prow/cmd/milestone-activator/activator.go:143-168 | every file has one possible search outcome; it is accepted iff starts and ends alternate properly |
| `MilestoneLaws.MarkersAsWritten` | prow/cmd/milestone-activator/activator.go:23-24 | the two marker lines, written out and with any spaces around them, are recognised as such |
| `MilestoneLaws.OnlyMarkersAreRecognised` | prow/cmd/milestone-activator/activator.go:146-154 | nothing else is recognised as a marker |
| `MilestoneActivator.HandleMilestoneSection` | prow/cmd/milestone-activator/activator.go:171-242 | every line gets its result from its own section's offset; the call completes iff every line has one, otherwise it reports the first that has none |
| `MilestoneLaws.Frame` | prow/cmd/milestone-activator/activator.go:198-229 | markers, lines outside sections and the number of lines are preserved |
| `MilestoneLaws.DifferenceIsReported` | prow/cmd/milestone-activator/activator.go:226-239 | on every input, different output lines imply the change flag |
| `MilestoneLaws.FlagWithoutDifference` | prow/cmd/milestone-activator/activator.go:244-263 | the flag is set on an unchanged line exactly for a comment away from the offset or inside the milestone text, on a line that reads as it would be written |
| `MilestoneLaws.TurnsIntoMarker` | prow/cmd/milestone-activator/activator.go:244-271 | a handled section line is a marker iff it was a marker without its comment and indented, a marker commented once more, or ends in a milestone that completes a marker |
| `MilestoneLaws.ActivatedAsWritten` | prow/cmd/milestone-activator/activator.go:244-263 | a line commented at its indentation with a milestone property loses its comment and gets the given milestone after the property |
| `MilestoneLaws.DeactivatedAsWritten` | prow/cmd/milestone-activator/activator.go:265-271 | any line that reaches the offset gets a comment there, unless it is commented anywhere, in which case it stays |
| `MilestoneLaws.HandlingFailsIff` | prow/cmd/milestone-activator/activator.go:252-269 | a slice is out of range exactly for lines that do not reach the offset: for commented ones in activation, for the others in deactivation |
| `MilestoneLaws.OnlyCommentedMarkersTurn` | prow/cmd/milestone-activator/activator.go:244-263 | unless the identifier contains the milestone property, activation makes markers only of markers commented once more |
| `MilestoneLaws.SameMarkersIff` | prow/cmd/milestone-activator/activator.go:143-168 | the output has the same markers, so it is accepted again with the same sections, iff no section line of the input turns into one |
| `MilestoneLaws.CommentCanCreateMarker` | prow/cmd/milestone-activator/activator.go:265-271 | commenting a line can create a marker |
| `MilestoneLaws.SecondRunOnLine` | prow/cmd/milestone-activator/activator.go:244-271 | on every line that a run handles, a second run reports it unchanged iff it settles |
| `MilestoneLaws.IndentedSettles` | prow/cmd/milestone-activator/activator.go:265-271 | a line with only spaces up to the offset settles under deactivation |
| `MilestoneLaws.SecondRunIsQuietIff` | prow/cmd/milestone-activator/activator.go:171-242 | the output has the same sections and a second run with the same milestone completes on it without a change iff no section line turns into a marker and all settle |
| `MilestoneLaws.DeactivateActivateLine` | prow/cmd/milestone-activator/activator.go:244-271 | commenting and activating restores a line iff a condition on its comment, its offset and its milestone text holds |
| `MilestoneLaws.IndentedIsRestored` | prow/cmd/milestone-activator/activator.go:244-271 | for an indented line the condition is: not commented at the offset, and its milestone is the given one |
| `MilestoneLaws.ActivateDeactivateLine` | prow/cmd/milestone-activator/activator.go:244-271 | activating and commenting restores a line iff a condition on its comments and its milestone text holds |
| `MilestoneLaws.CommentedOnceIsReactivated` | prow/cmd/milestone-activator/activator.go:244-271 | for a line commented exactly once, at the offset, the condition is that its milestone is the given one |
| `MilestoneLaws.DeactivateActivate` | prow/cmd/milestone-activator/activator.go:171-271 | whenever both runs complete, the round trip restores the identical lines iff no section line turns into a marker and each is restorable |
| `MilestoneLaws.ActivationCompletesIff` | prow/cmd/milestone-activator/activator.go:205-207 | after a deactivation, activation completes on a section line iff it reaches the offset |
| `MilestoneLaws.ActivateDeactivate` | prow/cmd/milestone-activator/activator.go:171-271 | the converse round trip, under the corresponding exact condition |
| `MilestoneFiles.SplitJoin` | prow/cmd/milestone-activator/activator.go:233 | the written text is read back as the same lines |
| `MilestoneFiles.JoinSplit` | prow/cmd/milestone-activator/activator.go:231-239 | a text without carriage returns that is empty or ends in a newline is written back as it was read |
| `MilestoneFiles.UnterminatedLastLine` | prow/cmd/milestone-activator/activator.go:142-143 | a last line without a newline is read like one with a newline, for every text |
| `MilestoneFiles.FirstLine` | prow/cmd/milestone-activator/activator.go:142-143 | reading yields the text up to the first newline, without a carriage return at its end, and then the lines of the rest |
| `MilestoneFiles.FileSystem.UpdateFile` | prow/cmd/milestone-activator/activator.go:63-87 | one file is rewritten, skipped or rejected as its sections demand, and no other file changes |
| `MilestoneFiles.FileSystem.UpdateFiles` | prow/cmd/milestone-activator/activator.go:61-90 | the files are processed in order up to the first error, which is the result; without one the flag is raised iff that of some file was |
| `MilestoneFiles.RunMakesQuiet` | prow/cmd/milestone-activator/activator.go:231-239 | one run turns a file whose lines settle into one that a further run accepts, reads back unchanged and leaves alone |
| `MilestoneFiles.UpdateKeepsQuiet` | prow/cmd/milestone-activator/activator.go:61-90 | processing a file leaves every quiet file as it is, itself included, and makes a tame one quiet |
| `CherryPickLocks.StepKeepsInv` | prow/external-plugins/cherrypicker/server.go:475-488 | every step of every call keeps map lock, table and request locks consistent |
| `CherryPickLocks.MutualExclusion` | prow/external-plugins/cherrypicker/server.go:475-488 | in every reachable state at most one call per request is in its critical section |
| `CherryPickLocks.BlockedBySameRequest` | prow/external-plugins/cherrypicker/server.go:487-488 | a waiting call is held up only by a call for the same request |
| `CherryPickLocks.LockNeverReplaced` | prow/external-plugins/cherrypicker/server.go:479-485 | the lock of a request never changes once it is in the table |
| `CherryPickLocks.NoDeadlock` | prow/external-plugins/cherrypicker/server.go:475-488 | in every reachable state with an unfinished call some call can take a step |
| `CherryPickLocks.EveryCallFinishes` | prow/external-plugins/cherrypicker/server.go:474-488 | every schedule is bounded, and when no step is left all calls are done |
| `CherryPickDispatch.HandlePullRequest` | prow/external-plugins/cherrypicker/server.go:336-470 | for every event, answer and iteration order the outcome is the right one, in terms of the description, the comments and the labels: early exits, failed requests, or the dispatched calls and replies |
| `CherryPickDispatch.CollectComments` | prow/external-plugins/cherrypicker/server.go:365-390 | the nested maps hold each user's last comment per branch and the last non-empty chain per branch |
| `CherryPickDispatch.AddLabels` | prow/external-plugins/cherrypicker/server.go:400-410 | label requests are credited to the author and take precedence over the author's comments |
| `CherryPickDispatch.DropUntrusted` | prow/external-plugins/cherrypicker/server.go:421-433 | exactly the trusted users' requests remain, unchanged |
| `CherryPickDispatch.Dispatch` | prow/external-plugins/cherrypicker/server.go:437-469 | each branch is handled at most once, failures do not stop the loop and are counted, base-branch requests get a reply |
| `CherryPickDispatch.LastChainFound` | prow/external-plugins/cherrypicker/server.go:386-388 | the chain passed on comes from the last comment, by anybody, that gives one |
| `CherryPickDispatch.CallsAreRight` | prow/external-plugins/cherrypicker/server.go:435-469 | exactly the non-base branches some trusted user asked for are handled, once each, for a trusted requestor, with the right comment and chain |
| `CherryPickDispatch.RepliesAreRight` | prow/external-plugins/cherrypicker/server.go:445-452 | exactly the trusted users who asked for the base branch get a reply, one each |
| `CherryPickDispatch.CallsArePlain` | prow/external-plugins/cherrypicker/server.go:371-388 | the same in terms of the event: the chain is that of the last comment giving one, the description's only if there is none; the comment answered is the requestor's last, the description only for its author and only if none of the author's comments asks |
| `CherryPickDispatch.RepliesArePlain` | prow/external-plugins/cherrypicker/server.go:371-388 | the same for the replies |
| `CherryPickDispatch.OutcomeIsPlain` | prow/external-plugins/cherrypicker/server.go:336-470 | every right outcome is right in terms of the description, the comments and the labels themselves, early exits and failures included |
| `ReleaseNotes.ReleaseNoteFromParentPR` | prow/external-plugins/cherrypicker/server.go:804-831 | the built text is the recognised notes with defaults filled in, printed one per block with newlines between |
| `ReleaseNoteLaws.OutputSays` | prow/external-plugins/cherrypicker/server.go:804-831 | for tidy headers and texts that are not blank, reading the output gives note for note the same kind, target and trimmed text; source and reference are the note's own if it gave both and otherwise the pull request's repository and number, the author its own or the pull request's |
| `ReleaseNoteLaws.NumberDenotes` | prow/external-plugins/cherrypicker/server.go:812 | a pull request's number is printed in decimal digits without leading zeros that denote it |
| `ReleaseNoteLaws.WrittenNoteIsRead` | prow/external-plugins/cherrypicker/server.go:46 | every block written as the expression has it, with any of the optional parts, is read in full, whatever follows |
| `ReleaseNoteLaws.ReadNoteIsWritten` | prow/external-plugins/cherrypicker/server.go:46 | whatever is read as a note is written as the expression has it, and nothing else is consumed |
| `ReleaseNoteLaws.WordsAreRead` | prow/external-plugins/cherrypicker/server.go:46 | the six kinds and four targets are read from their words |
| `ReleaseNoteLaws.TokensIff` | prow/external-plugins/cherrypicker/server.go:46 | a source is github.com, an organisation and a repository, none empty, with slashes between; a reference is a number sign and digits; an author an at sign and something |
| `ReleaseNoteLaws.SpacesAre` | prow/external-plugins/cherrypicker/server.go:46 | the expression knows five white space characters, trimming all 25 that Unicode has |
| `ReleaseNoteLaws.PrintedNoteIsRead` | prow/external-plugins/cherrypicker/server.go:818-825 | a printed note with a text is read back, whatever follows it |
| `ReleaseNoteLaws.NotesAreShaped` | prow/external-plugins/cherrypicker/server.go:46 | every note found in any body has well-shaped parts and a text of non-empty lines without an inner fence |
| `ReleaseNoteLaws.BlankNoteIsLost` | prow/external-plugins/cherrypicker/server.go:818-825 | a printed note with a blank text at the end is not found again |
| `ReleaseNoteLaws.BlankNoteTakesNextFence` | prow/external-plugins/cherrypicker/server.go:818-829 | a printed note with a blank text in front of another takes the next fence for its text |
| `ReleaseNoteLaws.BlankNoteExists` | prow/external-plugins/cherrypicker/server.go:46 | a body whose only note has a blank text |
| `ReleaseNoteLaws.NormalForm` | prow/external-plugins/cherrypicker/server.go:804-831 | if the notes of the body have tidy headers, the function returns its own output unchanged iff none of them has a blank text |
| `JobForking.ForkedJobsArePinned` | prow/cmd/job-forker/forking.go:29-61 | the forked jobs are copies of the annotated ones, each once and in order: renamed for the branch, running on it only, the fork request replaced by the forked mark, everything else kept |
| `JobForking.ForkedPeriodicsArePinned` | prow/cmd/job-forker/forking.go:63-91 | the same for the annotated periodics that refer to the repository, with exactly their references to it moved to the branch |
| `JobForking.PayloadIsPinned` | prow/cmd/job-forker/forking.go:109-136 | a file holds such copies of the annotated jobs of all configuration files, each once and in order |
| `JobForking.TruesAreFound` | prow/cmd/job-forker/forking.go:31-41 | the positions from which copies are taken are all annotated ones, in ascending order |
| `JobForking.SharedTarget` | prow/cmd/job-forker/forking.go:23-27 | two branches of a repository share a file iff they differ in dots and dashes only |
| `JobForking.FileNamesBranch` | prow/cmd/job-forker/forking.go:23-27 | a branch without a slash has a yaml file that starts with the repository's name with dashes for slashes, a dash, and the branch with dashes for dots; it counts as the repository's |
| `JobForking.SlashedBranchLosesRepo` | prow/cmd/job-forker/forking.go:101-103 | a branch with a slash has a file named after its last part only, whatever the repository |
| `JobForking.FilesCollideIff` | prow/cmd/job-forker/forking.go:23-27 | two repositories can share a file, by branches without a slash, iff their dashed names are equal or one extends the other by a dash and characters other than dots |
| `JobForking.PayloadIsEmpty` | prow/cmd/job-forker/forking.go:133-136 | whether a file is written for a branch depends on the repository's jobs only |
| `JobForking.RunIsUniform` | prow/cmd/job-forker/forking.go:93-166 | for every order of repositories each file of the result is an untouched old one or holds exactly the forked jobs of one live branch |
| `JobForking.RunSettles` | prow/cmd/job-forker/forking.go:258-283 | without a clash every visited repository ends complete and clean |
| `JobForking.StaleFileGoes` | prow/cmd/job-forker/forking.go:168-214 | after a run that handles the repository, the file of a branch without a slash is gone if no live branch of a handled repository has that file |
| `JobForking.OtherFilesStay` | prow/cmd/job-forker/forking.go:168-214 | a file that is no handled repository's orphan stays as it is, whatever is forked |
| `JobForking.SettledStays` | prow/cmd/job-forker/forking.go:245-285 | a settled directory is left alone by a run in any order |
| `JobForking.ClashLosesFile` | prow/cmd/job-forker/forking.go:186-208 | for every clash there is an order of repositories that deletes a file which had to be kept |
| `JobForking.ConvergesIffNoClash` | prow/cmd/job-forker/forking.go:245-285 | one run settles the directory in every order iff there is no clash, and further runs then change nothing |
| `JobForker.Directory.ForkJobs` | prow/cmd/job-forker/forking.go:93-166 | an existing file is kept, otherwise the file gets the jobs of freshly read configurations; the flag says whether the directory changed |
| `JobForker.Directory.RemoveOrphanedJobs` | prow/cmd/job-forker/forking.go:168-214 | exactly the repository's yaml files without a live branch go; the flag says whether any did |
| `JobForker.Directory.GenerateForkedConfigurations` | prow/cmd/job-forker/forking.go:245-285 | the run is one pass over every mentioned repository in some order; a change raises the flag, a settled directory does not |
| `JobForker.ReposFromJobFiles` | prow/cmd/job-forker/forking.go:216-243 | every repository that a job file mentions, once |
| `JobForker.GenerateJobs` | prow/cmd/job-forker/forking.go:29-61 | the result is the forked copies, and every annotated input has lost its request for good |
| `JobForker.GeneratePeriodics` | prow/cmd/job-forker/forking.go:63-91 | the same for periodics, including the request of unrelated ones |
| `JobForker.PinRefs` | prow/cmd/job-forker/forking.go:73-80 | the references to the repository, and only those, point to the branch, in the shared array |
| `JobForker.SpentJobsYieldNothing` | prow/cmd/job-forker/forking.go:109-117 | jobs that were generated from once yield nothing for any further branch, so every branch needs its own reading |
| `OrgChecker.CheckOrg` | prow/cmd/peribolos-checkconfig/main.go:120-178 | reports exactly the broken rules, each with exactly what breaks it, and nothing iff no rule is broken |
| `OrgChecker.TeamWalkState.WalkTeams` | prow/cmd/peribolos-checkconfig/main.go:234-270 | whatever the order, the state gains the findings of the whole tree |
| `OrgChecker.FoundInAnyOrder` | prow/cmd/peribolos-checkconfig/main.go:234-270 | the findings do not depend on which team is visited first |
| `OrgChecker.WalkFindsDuplicates` | prow/cmd/peribolos-checkconfig/main.go:249-258 | a name is found duplicate iff two places of the tree use it, as current or previous name |
| `OrgChecker.WalkFindsOpenTeams` | prow/cmd/peribolos-checkconfig/main.go:260-266 | a team is reported iff it has a parent or children and is secret |
| `OrgChecker.WalkFindsDualRoles` | prow/cmd/peribolos-checkconfig/main.go:243-247 | a team is reported with exactly the users that are its members and its maintainers, up to spelling, if there are any |
| `OrgChecker.WalkDecides` | prow/cmd/peribolos-checkconfig/main.go:148-170 | the final state names exactly the users, duplicates, open nested teams and dual-role teams of the tree |
| `OrgChecker.ValidateRepos` | prow/cmd/peribolos-checkconfig/main.go:183-212 | the reported pairs clash on exactly the lower-case names that two different repositories share, and exactly the repositories to unarchive are listed |
| `AliasSync.OrgAliases.AddMembersFromTeams` | prow/cmd/owners-aliases-bumper/aliases.go:61-73 | exactly the normalised members and maintainers of the teams whose path gives the alias are added, at any depth and in any order |
| `AliasSync.OrgAliases.AddMember` | prow/cmd/owners-aliases-bumper/aliases.go:17-27 | one login more for one alias, nothing else |
| `AliasSync.FullOrgAliases.CalculateAliasChanges` | prow/cmd/owners-aliases-bumper/changes.go:35-86 | exactly the aliases known to both sides that differ, each with both differences; no file, no changes |
| `AliasSync.WriteChanges` | prow/cmd/owners-aliases-bumper/changes.go:119-135 | changed aliases are sorted lists without the removed and with the added logins, unknown aliases are skipped, all others stay |
| `AliasSync.WrittenOnce` | prow/cmd/owners-aliases-bumper/changes.go:120-135 | the written file does not depend on the order of maps and sets |
| `AliasSync.NormLoginSettles` | prow/cmd/owners-aliases-bumper/aliases.go:63-68 | GitHub's normalisation changes its own result only by making it shorter, which is all that the laws need |
| `AliasSync.NormLoginIsStableIff` | prow/cmd/owners-aliases-bumper/aliases.go:63-68 | it leaves its result alone iff the login does not start with two @ |
| `AliasSync.ChangeSyncs` | prow/cmd/owners-aliases-bumper/changes.go:127-133 | a changed list names exactly the wanted people iff every login that had to go and every one that was added is spelled normally |
| `AliasSync.SecondSyncIsQuiet` | prow/cmd/owners-aliases-bumper/changes.go:59-85 | recomputing after writing yields no change iff every known alias was in sync, or its key and the logins to remove and to add are spelled normally |
| `AliasSync.SyncedMembers` | prow/cmd/owners-aliases-bumper/changes.go:119-135 | on normalised files every known alias gets exactly its teams' people, and the other aliases and the keys stay |
| `PullRequests.DeleteFunc` | prow/cmd/owners-aliases-bumper/github.go:141-146 | the kept elements move to the front in order, the rest of the slice is cleared, what lies behind is untouched |
| `PullRequests.FindOrCreatePR` | prow/cmd/owners-aliases-bumper/github.go:129-176 | one pull request onto the default branch is found or created, all other open ones from the branch are closed unless closing fails, nothing else changes, and an error changes nothing |
| `PullRequests.KeepOne` | prow/cmd/owners-aliases-bumper/github.go:148-162 | the first listed one is kept and the rest closed, or a new one is created |
| `PullRequests.ExactlyOneLeft` | prow/cmd/owners-aliases-bumper/github.go:154-175 | when all closes succeed exactly the returned pull request is left open from the branch, and it targets the default branch |
| `PullRequests.NextRunKeeps` | prow/cmd/owners-aliases-bumper/github.go:148-162 | a further run returns the same pull request and closes nothing |
| `BranchRanking.RankingIsAnOrder` | prow/cmd/branch-cleaner/branchcleaner.go:113-124 | the comparison is a strict weak order on all names |
| `BranchRanking.ComparableIff` | prow/cmd/branch-cleaner/branchcleaner.go:113-118 | exactly the names with a dot after the prefix have the two parts that a comparison needs |
| `BranchRanking.RankingReads` | prow/cmd/branch-cleaner/branchcleaner.go:113-124 | names are ranked by their first parts as strings and for equal ones by their second parts as integers; further parts do not matter |
| `BranchRanking.AtoiReads` | prow/cmd/branch-cleaner/branchcleaner.go:117-118 | a second part of digits with an optional sign counts as the number it denotes, or the nearest 64-bit integer |
| `BranchRanking.AtoiDropsErrors` | prow/cmd/branch-cleaner/branchcleaner.go:117-118 | any other second part counts as 0 |
| `BranchRanking.RankingIsNumericIff` | prow/cmd/branch-cleaner/branchcleaner.go:113-124 | two release branches rank numerically iff the majors have equally many digits or the longer one's leading digits are no smaller a number |
| `BranchRanking.NineOutranksTen` | prow/cmd/branch-cleaner/branchcleaner.go:113-124 | release 9.0 outranks release 10.0 |
| `BranchCleaner.Cleaner.GetMatchingBranches` | prow/cmd/branch-cleaner/branchcleaner.go:88-129 | exactly the matching branches, once each, ranked; it crashes only if two match and one has no second part |
| `BranchCleaner.Cleaner.IdentifyBranchesWithReleaseTags` | prow/cmd/branch-cleaner/branchcleaner.go:131-152 | exactly the released branches remain, still ranked; a name without a version fails |
| `BranchCleaner.Cleaner.IdentifyBranchesToDelete` | prow/cmd/branch-cleaner/branchcleaner.go:154-171 | exactly the unblocked branches beyond the first ones, still ranked |
| `BranchCleaner.Cleaner.CheckBranchToDelete` | prow/cmd/branch-cleaner/branchcleaner.go:173-211 | a branch may go iff no open pull request targets it and, in a fork, none comes from it |
| `BranchCleaner.Cleaner.Run` | prow/cmd/branch-cleaner/branchcleaner.go:46-86 | a run without error deletes exactly the doomed branches, a failed one none but doomed ones, higher ranks first; protection goes only in release mode and only for doomed branches |
| `BranchCleaner.Retention` | prow/cmd/branch-cleaner/branchcleaner.go:154-171 | every deleted branch leaves at least the configured number of surviving candidates that rank no lower |
| `BranchCleaner.EnoughAboveIsDoomed` | prow/cmd/branch-cleaner/branchcleaner.go:154-171 | an unblocked candidate with that many strictly above it is deleted, however ties are sorted |
| `Sorting.SortedOnce` | prow/cmd/owners-aliases-bumper/changes.go:134 | sorting strings has one possible result, whatever the algorithm |
| `Sorting.BeforeIff` | prow/cmd/branch-cleaner/branchcleaner.go:123 | strings are ordered by the first character in which they differ, a beginning of the other first |

## Left out

- Construction of Kubernetes objects (pods, volumes, affinity, image destinations): a pod is its name and its build group.
- Real clients, informers, log streams, git, HTTP and webhook validation: their calls are environment steps or may fail at any time.
- The numbering of log files in the image-builder, and the length of its pod names.
- YAML: a written file parses back to the value that was written, and a three-way merge keeps that value.
- The regular expression engine and semantic versions: whether a branch matches, and which release tag it asks for, are given functions.
- Errors of reading and writing files in the job-forker and of cloning, committing and pushing.
- JobForker.GenerateJobs: stands for the two generators of presubmits and postsubmits, which differ in types only.
- JobForker.ReadJobConfig: loads the jobs of one repository instead of all of a file.
- BranchCleaner.Cleaner.Run: the pull requests and tags of a repository do not change during a run.
- PullRequests.FindOrCreatePR: pull requests have distinct numbers, and a failed request leaves no trace on the server.
- AliasSync.SecondSyncIsQuiet: excludes files with two keys for one alias, and files in which one key is the normalised form of another.
- CherryPickDispatch.HandlePullRequest: replies are recorded, not written; that writing one fails is logged by the program and changes nothing.
- ReleaseNoteLaws.NormalForm: excludes bodies with a note whose source, reference or author contains white space that is trimmed but not matched.
- ReleaseNoteLaws.OutputSays: excludes the same bodies, and those with a blank text, of which `BlankNoteIsLost` and `BlankNoteTakesNextFence` say what becomes.
- JobForking.StaleFileGoes: says nothing of branches with a slash, whose files need not look like any repository's (`SlashedBranchLosesRepo`).
- MilestoneFiles.RunMakesQuiet: one direction only; a file that is not tame can be quiet after a run.
- OrgChecker.TeamWalkState.WalkTeams: an open nested team is recorded by name, its privacy being secret in every such case.
- CherryPickLocks.MutualExclusion: the critical section is one step; what it does to the repository is not modelled.
- The comment event of the cherrypicker, its title rewriting, and the cherry-pick itself.
- Lines too long for Go's line scanner, and the atomicity of updates across files in the milestone-activator.
- The choice of the open milestone, `githubinteractor`, the release handler, flag parsing, logging and all `main` functions.
