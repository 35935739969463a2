# Verified models of Pharness

This project models the four parts of Pharness whose correctness rests on arguments that span
several functions, and proves what those parts are for.

* **The import check** (`scripts/app-module-dependencies.py`): the lexical filter, the use-tree
  expansion, the resolution of imports, the strongly connected components and the verdict of `--check`.
  Modules `ModuleGraph`, `ComponentSearch`, `Components`, `CycleCheck`, `RustFilter`, `RustTokens`,
  `RustLiterals`, `UseTree`, `UseTreePrinting`, `ImportResolution`.
* **Run finalization and the stage chain** (`worker.rs`, `worker/recovery.rs`): how a Run ends, how its
  stage is sealed, what happens to the WorkItem, the chain authorization, the ChangeSet and the budget,
  which stage may follow, and what a process leaves behind that stops half-way. Modules `WorkStore`,
  `StageSeals`, `StageVerdicts`, `StageRecords`, `Finalization`, `CallbackRecords`, `WorkerActions`, `StageChain`,
  `StageStarts`, `StageTrail`, `Offers`, `Recovery`, `ChangeSets`, `Budget`, `WorkPlans`, `PlanDocuments`.
* **Job admission and reaping** (`dispatch.rs`, `dispatch/recovery.rs`): any number of dispatches, Jobs
  and Runs as a protocol under the admission lock, and the reaper of executor Jobs against its fellow
  writers. Modules `JobCapacity`, `JobAdmission`, `AdmissionSafety`, `AdmissionHandoff`,
  `AdmissionLag`, `DispatchActions`, `Reaper`, `ReaperPasses`, `ReaperWindow`, `ReaperSystem`,
  `ReaperHistory`, `ReaperEndings`, `ReaperActions`, `ReaperLosses`, `ReaperRestorations`, `ReaperReturns`, `ReaperLateWrites`.
* **The image gate** (`campus_image_policy.py`, `campus_image_gate.py`): exceptions, the vulnerability
  policy, the evidence record, the repository check, the admission rule over whole histories, and the
  YAML printer with a reader for what it prints. Modules `ImageReference`, `ImageGrammar`, `PolicyExceptions`,
  `PolicyDates`, `PolicyEntries`, `ImagePolicy`, `PolicyLaws`, `ImageEvidence`, `ImageEntries`, `ImageRecord`, `ImageAdmission`, `Yaml`, `YamlReader`,
  `YamlScalars`, `YamlLiterals`, `YamlRoundTrip`, `YamlTheorem`, `YamlExact`.

Code that changes things step by step is a loop or a class whose methods overwrite its fields; each of
its methods is tied to a function of the old state, and the properties are lemmas about those functions.
What an operation decides is stated a second time, without those functions, in terms of its input alone: as
grammars of the texts it reads, and as relations between the records before and after.
A lock that is held for the whole of an operation makes the operation one step; where a lock is held
only in stretches, or not at all, the steps are the single reads and writes.

A few promises do not hold as they might be read. Each is kept as the code has it, with an input that
shows it and the exact condition under which it does hold:

* a bare use leaf drops `self` wherever it stands (`UseTreePrinting.ExpandsAsMeant`), a `super` after a
  leading `self` is taken for a name (`ImportResolution.RelativeImportsAreMeant`), and an import that climbs
  above the root is looked up from the root (`ImportResolution.AboveTheRootIsTakenFromTheRoot`);
* a budget pause may lower the recorded turns and seconds (`Budget.CallbackLowersExactly`);
* a repair that a Test offers is not always taken up (`Offers.TestOfferTaken`, `Offers.OfferInVain`);
* a seal of a Run that is not hosted, stopped once its outcome is sealed, is not completed by a second
  call (`Recovery.PlainSealIsCompletedUnlessSealed`, `Recovery.StoppedBuildKeepsAuthorization`);
* live worker Jobs exceed the limit by as many Jobs as a listing may miss (`AdmissionSafety.LiveJobsAreBounded`,
  `AdmissionLag.LagIsReached`);
* the sweep for disappeared executor Jobs also fails an execution whose Job was created after the Jobs
  were listed and is alive (`ReaperLosses.LivingJobIsFailedExactly`, `ReaperLosses.RacingDispatchIsFailed`);
* the reaper does not fail an execution at most once: a report, evidence or an observation that read the
  intent earlier is written back over the failure, and the execution is failed again without its Job being
  recorded again (`ReaperRestorations.FailedAgainAndAgain`; when it can happen: `ReaperReturns.FailsAgainExactly`);
* a reaper write that comes late destroys what was written since its check: a staling, or another
  execution, recorded or still being dispatched (`ReaperLateWrites.LateWriteDiffersExactly`,
  `ReaperLateWrites.LateWriteHitsNewer`, `ReaperLateWrites.StaledIsOverwritten`,
  `ReaperLateWrites.RacingDispatchIsDestroyed`);
* a second reaper pass over the same Jobs may still fail executions when more intents are executing than
  one listing holds (`ReaperWindow.SecondPassIsNoOp`);
* an exception is meant for one identifier, package and repository, but the code compares the three
  joined by bars, so an accepted exception for something else can cover a finding
  (`PolicyLaws.ForeignCoverExactly`, `PolicyLaws.KeysCollide`);
* some printed values do not come back from their YAML text (`YamlExact.ReadsBackExactly`).

The dispatcher's comment asks that the mapping from Run identifiers to labels be reversible;
`JobCapacity.LabelIsReversible` gives the identifiers for which it is.

## Model

| member | source | states |
|---|---|---|
| Components.StronglyConnectedComponents | scripts/app-module-dependencies.py:193-229 | for every finite graph the emitted lists partition its modules, two modules share a list exactly when each reaches the other, and an edge between two lists always leads to one emitted earlier |
| Components.Search.Visit | scripts/app-module-dependencies.py:201-224 | a visit keeps the stack, numbering and component invariants, explores everything it can reach, and leaves in the low link an index that the node reaches and that no older stack node targeted from the unfinished part undercuts |
| Components.Search.Follow | scripts/app-module-dependencies.py:207-214 | each of the three treatments of a target keeps the scan's invariant with that target done |
| Components.Search.PopComponent | scripts/app-module-dependencies.py:215-224 | unwinding to the node emits exactly one class of mutual reachability and restores the stack as it was before the visit |
| ComponentSearch.UnwoundIsClass | scripts/app-module-dependencies.py:215-224 | the unwound part of the stack is a whole class, with nothing missing and nothing extra |
| ComponentSearch.PopDependencies | scripts/app-module-dependencies.py:207-224 | when a class is emitted, all its outgoing edges lead into it or into classes already emitted |
| CycleCheck.Check | scripts/app-module-dependencies.py:232-251 | two distinct modules are reported together exactly when one import cycle that avoids the root visits both, and the exit status is 1 exactly when such a pair exists |
| CycleCheck.CommonCycleIsMutual | scripts/app-module-dependencies.py:237-245 | lying on a common closed walk through non-root modules is mutual reachability in the bounded graph, in both directions |
| RustFilter.RustCode | scripts/app-module-dependencies.py:16-79 | the in-place masking loop computes the filter, with the same three refusals |
| RustFilter.FilterTheorem | scripts/app-module-dependencies.py:16-79 | a successful filtering keeps length and line breaks, changes characters only to blanks, leaves no quote, no comment opening and no character literal, and is idempotent |
| RustFilter.FixedIffClean | scripts/app-module-dependencies.py:16-79 | the texts left unchanged are exactly those in which no comment or literal begins |
| RustFilter.NextToken | scripts/app-module-dependencies.py:33-78 | the chain of branches classifies every position as kept, skipped to a later position, or broken |
| RustTokens.BlockCommentExact | scripts/app-module-dependencies.py:38-50 | the depth counter ends a block comment exactly where a properly nested comment ends |
| RustTokens.StringExact | scripts/app-module-dependencies.py:61-72 | a string literal ends exactly at its first quote that is not escaped |
| RustLiterals.CharExact | scripts/app-module-dependencies.py:26 | a character literal ends exactly where one plain or escaped character, two hexadecimal digits or a braced code point between apostrophes ends |
| RustLiterals.RawExact | scripts/app-module-dependencies.py:52-60 | a raw string is an `r`, `br` or `cr`, at most 255 hashes and a quote, and ends exactly at the first quote followed by the same hashes |
| RustLiterals.TokenExact | scripts/app-module-dependencies.py:33-78 | the decision at a position ends exactly the comment or literal that is spelled there, a raw string only where no identifier runs up to it |
| RustLiterals.FilteredExactly | scripts/app-module-dependencies.py:16-79 | the filter returns a text exactly when the source can be cut into comments, literals and single characters where neither begins, and the text is the source with the comments and literals blanked |
| RustLiterals.RefusedExactly | scripts/app-module-dependencies.py:16-79 | the filter refuses exactly the texts in which a comment or literal begins that never ends, and says which |
| UseTree.ExpandUseTree | scripts/app-module-dependencies.py:107-134 | the recursion around the brace-counting loop computes the expansion, or reports the unbalanced tree |
| UseTree.SplitTopLevel | scripts/app-module-dependencies.py:91-104 | the depth-counting loop returns the trimmed, non-empty comma pieces at depth zero |
| UseTreePrinting.ExpandPrinted | scripts/app-module-dependencies.py:107-134 | expanding a printed tree of nested groups, renames and `self` members yields exactly its leaf paths, in order |
| UseTreePrinting.ExpandsAsMeant | scripts/app-module-dependencies.py:110-113 | the expansion is what the tree means exactly when no bare leaf mixes `self` with other segments |
| UseTreePrinting.BareSelfIsLost | scripts/app-module-dependencies.py:112-127 | `self::a` loses its `self` while `self::{a}` keeps it |
| UseTreePrinting.TopLevelOfForest | scripts/app-module-dependencies.py:91-104 | splitting a printed list at its top-level commas returns its members as printed |
| ImportResolution.ResolveImport | scripts/app-module-dependencies.py:137-161 | importing `crate::app::` and a path gives the longest known prefix of that path, any other `crate` path and any other nonempty path that begins with neither `self` nor `super` give nothing, and a relative path the longest known prefix of where it leads |
| ImportResolution.RelativeImportsAreMeant | scripts/app-module-dependencies.py:147-155 | a relative import is looked up in the module it leads to exactly when only `super` segments and at most one `self` after them stand in front |
| ImportResolution.AboveTheRootIsTakenFromTheRoot | scripts/app-module-dependencies.py:149-156 | an import with more `super` segments than its module is deep leads nowhere, and what is left of it is looked up from the root |
| ImportResolution.SelfThenSuperIsMissed | scripts/app-module-dependencies.py:149-153 | `self::super::c` in a submodule is looked up below the submodule and not in its parent |
| WorkerActions.Database.FinishRunFromAttempt | crates/pharness-api/src/worker.rs:343-480 | the callback writes run, consumption and stage in the source's order and stops at the same refusals; the store it leaves is the function of the old one that the next two rows describe |
| CallbackRecords.AcceptedCallback | crates/pharness-api/src/worker.rs:343-480 | an accepted callback ends the Run completed, failed, cancelled, waiting for approval or for a budget extension exactly when the reported text says so, records the consumption and that text, and on a hosted Run that has ended the attempt with the recorded consumption; no other Run changes |
| CallbackRecords.RefusedCallback | crates/pharness-api/src/worker.rs:349-378 | a callback is refused unless the Run is open, the allowance is the recorded one, no use went down, the workspace is accepted and the text is one of the five with, for a pause, a payload within the budget; it then leaves at most a recorded consumption |
| WorkerActions.Database.SyncRepoStageRun | crates/pharness-api/src/worker.rs:491-559 | identity checks, the sealed case, the retrieval check and the choice of the seal, as one function of the old store |
| CallbackRecords.OnlyItsOwnStageIsSealed | crates/pharness-api/src/worker.rs:491-559 | an outcome is added only for the stage that the Run was bound to and made, after a terminal report with accepted retrievals, and that stage is then sealed by its finalizer |
| WorkerActions.Database.SealPlanStage | crates/pharness-api/src/worker.rs:1648-1887 | the plan is recorded, the WorkItem moved and the outcome sealed, each only if the step before succeeded |
| WorkerActions.Database.SealImplementStage | crates/pharness-api/src/worker.rs:1452-1639 | an invalid build blocks the WorkItem and withdraws the authorization; a valid one moves it to verifying |
| WorkerActions.Database.SealTestStage | crates/pharness-api/src/worker.rs:829-1076 | pass, repair offer and failure as judged from the recorded results, with the authorization withdrawn only in the last case |
| WorkerActions.Database.SealTestDiagnosisStage | crates/pharness-api/src/worker.rs:561-704 | a diagnosis is sealed beside the failed Test and never replaces it |
| WorkerActions.Database.SealVerifyStage | crates/pharness-api/src/worker.rs:1078-1291 | the verdict is sealed first, then the ChangeSet derived, then the WorkItem moved, then the authorization withdrawn |
| WorkerActions.Database.SealUnimplementedStage | crates/pharness-api/src/worker.rs:2003-2063 | any other stage blocks the WorkItem |
| WorkerActions.Database.CreateRepoChangeSet | crates/pharness-api/src/worker.rs:1293-1410 | the same material returns the existing ChangeSet, a rejected one of an earlier revision is replaced, anything else is refused |
| WorkerActions.Database.RevokeChainForRun | crates/pharness-api/src/worker.rs:1429-1450 | exactly the active authorization the Run carries is withdrawn |
| WorkerActions.Database.FinishSealedStage | crates/pharness-api/src/worker/recovery.rs:63-161 | a sealed stage is never judged again; a hosted Run redoes what comes after the seal |
| WorkerActions.Database.ReconcileTerminalHostedRun | crates/pharness-api/src/worker/recovery.rs:6-61 | local normalization of a terminal hosted Run, with every identity and evidence refusal |
| CallbackRecords.ReconcilesExactly | crates/pharness-api/src/worker/recovery.rs:6-61 | exactly an ended hosted Run with its own stage of its own WorkItem is reconciled, if the stage is sealed or the stored attempt agrees with how the Run ended; that is the synchronization of its callback |
| CallbackRecords.CallbackKeepsEvidence | crates/pharness-api/src/worker.rs:2449-2472 | what an accepted terminal callback leaves on a hosted Run is all that reconciling it needs |
| WorkerActions.Database.FailRunFromWorkerBoundary | crates/pharness-api/src/worker.rs:3150-3211 | a failure outside the worker ends a Run that is not terminal; an error while sealing is swallowed |
| CallbackRecords.OutsideFailure | crates/pharness-api/src/worker.rs:3150-3211 | exactly the open Runs end as failed with their consumption kept and the result of a failed attempt, except that a Run waiting to be resumed keeps the result it resumes from |
| WorkerActions.Database.ReapRunJobs | crates/pharness-api/src/dispatch.rs:3514-3613 | one pass over the failed worker Jobs in order, ended by the first refusal |
| CallbackRecords.ReapedRun | crates/pharness-api/src/dispatch.rs:3514-3613 | a failed Job fails a queued or running Run, leaves any other open or ended Run alone, and brings the stage of a failed Run to its end |
| WorkerActions.ReaperPassSettles | crates/pharness-api/src/dispatch.rs:3514-3613 | a whole pass keeps every ended Run, every sealed outcome, and the tie between success and completion |
| Finalization.EveryInterleaving | crates/pharness-api/src/worker.rs:343-559 | in every interleaving of callbacks, dispatch failures, reaper passes and recoveries an ended Run never changes again, a sealed outcome is never replaced, and a sealed success belongs to a Run that completed |
| Finalization.StepKeeps | crates/pharness-api/src/worker.rs:3134-3211 | each single entry point keeps that invariant and everything already settled |
| Finalization.SealStageSealsOnly | crates/pharness-api/src/worker.rs:524-557 | sealing changes no Run and adds at most the outcome of its own execution, as a success only for a completed attempt |
| Recovery.InterruptedSealIsCompleted | crates/pharness-api/src/worker/recovery.rs:63-161 | a hosted seal stopped after any of its writes and called again with the same evidence ends with exactly the store of an undisturbed seal, for every stage |
| Recovery.PlainSealIsCompletedUnlessSealed | crates/pharness-api/src/worker/recovery.rs:63-75 | for any other Run the second call ends with that store exactly when the first one stopped before the outcome was sealed, or had nothing left to write |
| Recovery.StoppedBuildKeepsAuthorization | crates/pharness-api/src/worker/recovery.rs:69-75 | a failed build of such a Run that stopped once its outcome was sealed keeps, after the second call, the authorization an undisturbed seal withdraws |
| Recovery.AlwaysRooted | crates/pharness-api/src/worker.rs:1335-1352 | in every interleaving each ChangeSet cites a verification that is sealed, which is what the recovery relies on |
| StageRecords.PlanRecord | crates/pharness-api/src/worker.rs:1648-1887 | a Plan succeeds exactly for a completed attempt with a valid submission without blockers, is blocked exactly with them, fails or is cancelled without one, and a valid submission is the next plan revision unless it is recorded already |
| StageRecords.BuildRecord | crates/pharness-api/src/worker.rs:1452-1639 | a build succeeds, and the authorization stays, exactly for a completed attempt that changed something and only what the writable paths cover |
| StageRecords.MatchingCovers | crates/pharness-api/src/worker.rs:1641-1646 | a pattern ending in a slash and two stars matches exactly its directory and what lies below, any other pattern only itself |
| Offers.TestRecord | crates/pharness-api/src/worker.rs:883-1076 | a Test is sealed as succeeded exactly for a completed attempt with one result for each selected command and a passing one for every command; a repair is offered exactly for the controller's own results, all of commands that ran, on a WorkItem built once; WorkItem and authorization follow |
| Offers.VerifyRecord | crates/pharness-api/src/worker.rs:1120-1291 | a Verify is sealed as succeeded exactly when the attempt completed with the decision approved, the effective Implement and Test succeeded, no caveat list is malformed and no contradiction is listed; a repair is offered exactly for another decision on a WorkItem built once; WorkItem and authorization follow |
| Offers.OnlyVerifiedDerives | crates/pharness-api/src/worker.rs:1120-1291 | however far the seal gets, a ChangeSet is added or replaced only under that condition |
| Offers.DiagnosisRecord | crates/pharness-api/src/worker.rs:561-758 | a diagnosis beside a failed Test of the WorkItem succeeds exactly with a summary, a repairable kind and references that all name evidence, is blocked for any other known kind, and no effective or sealed outcome is replaced |
| Offers.OtherRecord | crates/pharness-api/src/worker.rs:2003-2063 | a stage without a finalizer is blocked for a completed attempt and failed or cancelled otherwise, and its WorkItem is blocked |
| StageChain.SealKeepsChainInStep | crates/pharness-api/src/worker.rs:561-1291 | after a completed seal the authorization is active exactly while the WorkItem is verifying or executing, for the three chain stages and for no other stage |
| StageChain.OrderlyBounds | crates/pharness-api/src/app/repo_mode/stages.rs:1258-1342 | starting a stage lowers the pair of builds left and stages left |
| StageStarts.NextIsDue | crates/pharness-api/src/app/repo_mode/stages.rs:1258-1408 | after a completed Run exactly this is started: a Test after a sealed build, a Verify after a sealed Test, a build after a diagnosis, and after a failure worth one repair the diagnosis of the Test or a build; exactly a missing outcome is refused |
| StageStarts.ContinuesAsDue | crates/pharness-api/src/app/repo_mode/stages.rs:1258-1477 | what is due is started as one queued Run bound to one new execution under the active authorization, or the authorization is withdrawn and the WorkItem blocked; if nothing is due nothing happens |
| StageStarts.SuccessLeadsOn | crates/pharness-api/src/app/repo_mode/stages.rs:1334-1342 | a build inside the writable paths is followed by a Test and a Test with passing results by a Verify |
| StageTrail.ChainEnds | crates/pharness-api/src/app/repo_mode/stages.rs:1258-1477 | callbacks of any Run and, as steps of their own, the continuations of accepted ones: whatever happens in whatever order, a WorkItem's chain has at most one repair and at most six stage executions, started in an orderly sequence |
| StageTrail.LateCallbackStartsNothing | crates/pharness-api/src/app/runs.rs:610-630 | a late callback or continuation of an earlier stage changes and starts nothing, because every earlier Run has ended and none has a continuation due |
| StageTrail.ChainStarts | crates/pharness-api/src/app/repo_mode/stages.rs:643-660 | the first build of a chain begins such a sequence |
| Offers.NothingUnoffered | crates/pharness-api/src/app/repo_mode/stages.rs:1303-1333 | after a failed stage that offered no repair nothing is started |
| Offers.TestOfferTaken | crates/pharness-api/src/app/repo_mode/stages.rs:1345-1400 | a repair offered by a Test is taken up exactly when the feature is on, the Run completed and some command did not exit with zero |
| Offers.VerifyOfferTaken | crates/pharness-api/src/app/repo_mode/stages.rs:1401-1408 | a repair offered by a Verify is taken up exactly when the feature is on |
| Offers.OfferInVain | crates/pharness-api/src/app/repo_mode/stages.rs:1345-1400 | there is a sealed, completed Test with an active authorization and the feature on whose offered repair starts nothing: its command exited with zero but was not reported as passed |
| Offers.ExactIsOneToOne | crates/pharness-api/src/worker.rs:868-885 | with distinct selected commands, exact results are one-to-one with them and none of them failed |
| ChangeSets.DerivesExactly | crates/pharness-api/src/worker.rs:1293-1410 | a derivation succeeds exactly when there is a recorded plan, a succeeded effective build with its Run and artifacts, and the plan has no ChangeSet, one of the same material or an outdated one; the ChangeSet is then of that material |
| ChangeSets.MaterialIs | crates/pharness-api/src/worker.rs:1310-1351 | the material is the plan with its revision, the Run of the effective build, its patch, exactly the executions effective for the WorkItem, and the verification |
| ChangeSets.VerifiedChangeIsRecorded | crates/pharness-api/src/worker.rs:1262-1351 | a sealed verified change is on record with that material, which holds the verification itself |
| ChangeSets.ReplacedExactly | crates/pharness-api/src/worker.rs:1352-1427 | a derivation replaces a ChangeSet exactly when it is rejected, of this plan, of an earlier recorded revision, and the material differs |
| ChangeSets.SameMaterialSameChangeSet | crates/pharness-api/src/worker.rs:1354-1356 | deriving from unchanged material returns the ChangeSet as it is, whatever its review says |
| ChangeSets.RevisionsFollowThePlan | crates/pharness-api/src/worker.rs:1335-1427 | over any history of derivations, reviews and plan revisions a WorkPlan keeps one ChangeSet, its material changes only by replacement, and each replacement is for a strictly later plan revision |
| ChangeSets.UnrejectedIsKept | crates/pharness-api/src/worker.rs:1412-1427 | until some review rejects it a ChangeSet keeps its material and revision |
| Budget.CallbackLowersExactly | crates/pharness-api/src/worker.rs:360-440 | a callback never changes the allowance nor lowers the tokens, and lowers turns or seconds exactly when it records a pause whose payload reports less |
| Budget.PauseMayLower | crates/pharness-api/src/worker.rs:413-427 | such a pause is accepted |
| Budget.UseNeverFalls | crates/pharness-api/src/worker.rs:360-378 | over any interleaving without such a pause the use of a Run never falls and its allowance changes only by an approved extension |
| WorkPlans.ValidateWorkPlan | crates/pharness-api/src/worker.rs:1912-2001 | accepts exactly the plans of one to fifty titled steps whose names are declared, not repeated within a step, and together all of the selected commands |
| WorkPlans.AcceptedCoversTheSelection | crates/pharness-api/src/worker.rs:1948-1985 | in an accepted plan a command is selected exactly when some step names it |
| PlanDocuments.PlanIs | crates/pharness-api/src/worker.rs:1912-2001 | that is so for exactly the documents with a trimmed summary of at most 4000 encoded bytes, one to fifty steps with a title and a description, and proper names, in the texts of their fields |
| PlanDocuments.ReadingIs | crates/pharness-api/src/worker.rs:1987-2001 | summary and title are the trimmed texts, with the defaults of the source for a title or a risk level that is not there |
| JobCapacity.AwaitChainedRunCapacity | crates/pharness-api/src/dispatch.rs:1715-1747 | the polling loop admits, refuses or fails at the first look that is not a wait, all earlier looks being waits, and gives up at the step bound |
| JobCapacity.VerdictIgnoresOrder | crates/pharness-api/src/dispatch.rs:3840-3906 | the capacity verdicts do not depend on the order of the listing |
| JobCapacity.VerdictIs | crates/pharness-api/src/dispatch.rs:3840-3906 | there is room exactly below the limit of active Pods; at the limit a chained Run waits exactly when every Job with an active Pod carries its predecessor's label |
| JobCapacity.LabelIsReversible | crates/pharness-api/src/dispatch.rs:4123-4129 | exactly which Run identifiers come back from their label |
| JobCapacity.LabelNamesOneRun | crates/pharness-api/src/dispatch.rs:3942-3946 | among those identifiers a label names one Run |
| DispatchActions.Pool.CheckRequest | crates/pharness-api/src/dispatch.rs:1410-1432 | a hosted dispatch whose Job exists returns at once; otherwise a chained one requires its predecessor to be completed |
| DispatchActions.Pool.AwaitCapacity | crates/pharness-api/src/dispatch.rs:1710-1747 | one look moves the dispatch to admitted, to another look, or out |
| DispatchActions.Pool.CreateJob | crates/pharness-api/src/dispatch.rs:1433-1466 | a created Job is added once, a name in use is never replaced, and a lost answer is resolved by reading again for hosted Runs only |
| DispatchActions.Pool.DispatchOnce | crates/pharness-api/src/dispatch.rs:1405-1467 | an undisturbed dispatch keeps the limit, releases the lock, and adds nothing to a full pool |
| AdmissionSafety.NeverOverTheLimit | crates/pharness-api/src/dispatch.rs:1405-1437 | with any number of concurrent dispatches, if every created Job is counted by the next listing, live worker Jobs never exceed the limit |
| AdmissionSafety.LiveJobsAreBounded | crates/pharness-api/src/dispatch.rs:1405-1437 | if a listing may miss k created Jobs, live worker Jobs never exceed the limit plus k |
| AdmissionLag.LagIsReached | crates/pharness-api/src/dispatch.rs:1683-1713 | and for every limit and every k some run reaches exactly that many |
| AdmissionHandoff.StartsOnlyAfterCompletion | crates/pharness-api/src/dispatch.rs:1715-1728 | in every interleaving a Job created for a chained Run follows a predecessor recorded as completed, and Job names stay distinct |
| AdmissionHandoff.LookDecides | crates/pharness-api/src/dispatch.rs:3872-3906 | a look admits exactly when the counted Jobs leave room, and waits on exactly when every counted Job carries the predecessor's label and time is left |
| AdmissionHandoff.EnteringDecides | crates/pharness-api/src/dispatch.rs:1410-1432 | entering returns at once for a hosted dispatch whose Job is there, in vain for a chained one whose predecessor has not completed, and otherwise begins to look |
| AdmissionHandoff.CreatingDecides | crates/pharness-api/src/dispatch.rs:1433-1466 | creating adds exactly the requested Job under a free name and nothing under a used one, and reports success exactly for a created Job, a lost answer of a hosted dispatch, or an equal hash |
| AdmissionHandoff.WaitNeverTurnsIntoRefusal | crates/pharness-api/src/dispatch.rs:1729-1746 | once a chained dispatch has waited, no later look refuses it: it is admitted, waits on or runs out of time |
| AdmissionHandoff.DispatchIsShort | crates/pharness-api/src/dispatch.rs:1405-1467 | whatever the others do, a dispatch takes a bounded number of steps of its own, so the lock is always given back |
| AdmissionHandoff.DispatchIsRepeatable | crates/pharness-api/src/dispatch/recovery.rs:34-89 | a hosted dispatch whose Job is visible creates nothing and succeeds exactly if the recorded hash is its own |
| ReaperActions.Controller.ReapTektonExecutorJobs | crates/pharness-api/src/dispatch.rs:3615-3735 | with others at work at every pause, a pass is a history that lists the Jobs, works off both lists to their end with the intents listed in between, and finishes; with nobody else at work it is the undisturbed pass |
| ReaperActions.Controller.FailPipelineIntentExecutionIfCurrent | crates/pharness-api/src/dispatch.rs:3737-3805 | a look, whatever others do, and a write; undisturbed it fails only the execution the intent waits for |
| ReaperHistory.CheckedIsFailed | crates/pharness-api/src/dispatch.rs:3737-3805 | whatever others do between check and write, the failure is stored and audited exactly when the intent was waiting for this execution at the check |
| ReaperHistory.OnlyEndedOrMissing | crates/pharness-api/src/dispatch.rs:3639-3733 | in every history a pass is about to fail only the execution of a listed Job with a Pod that failed or succeeded, for having failed or completed, or a listed executing one whose recorded Job was not among the listed Jobs, for having disappeared |
| ReaperPasses.PassFailsExactly | crates/pharness-api/src/dispatch.rs:3615-3735 | an undisturbed pass fails exactly the executing intents whose recorded Job is listed with a failed or succeeded Pod, as failed if a Pod failed and as completed otherwise, and those within the window whose recorded Job is not listed; nothing else changes |
| ReaperEndings.EndedJobIsReaped | crates/pharness-api/src/dispatch.rs:3674-3694 | whatever others do, a pass during which nobody else writes the intent fails the execution of every Job it listed with an ended Pod |
| ReaperEndings.EndedPodIsReaped | crates/pharness-api/src/dispatch.rs:3828-3838 | once the Pod of an executing intent's Job has ended, well or badly, and as long as nothing removes the Job before the next listing or writes the intent, the next pass leaves the intent failed: for having failed if the Pod did, for having completed if no Pod of the Job ever failed |
| ReaperHistory.SurvivorsHaveJobs | crates/pharness-api/src/dispatch.rs:3695-3733 | whatever others do during the sweep, a listed intent still executing at its end, with a Job and an execution recorded, has a Job that was visible, or one recorded since the intents were listed, or one restored since by a write that was prepared from a document naming it and came when the intent waited for it no more |
| ReaperLosses.LivingJobIsFailedExactly | crates/pharness-api/src/dispatch.rs:3695-3733 | an execution failed by the sweep has its Job in the cluster exactly when that Job was created after the Jobs were listed and not removed since |
| ReaperLosses.LivingJobWasRecordedInTheGap | crates/pharness-api/src/dispatch.rs:3695-3706 | if no new Job is recorded between the two listings, only executions without a Job in the cluster are failed as disappeared |
| ReaperLosses.RacingDispatchIsFailed | crates/pharness-api/src/dispatch.rs:3615-3733 | a dispatch between the two listings has its execution failed as disappeared while the Job runs |
| ReaperWindow.SecondPassIsNoOp | crates/pharness-api/src/dispatch.rs:3699-3706 | with f executions failed in the first listing, a second pass over the same Jobs changes nothing exactly when none of the f executing intents just beyond that listing has an unseen Job |
| ReaperPasses.SmallStoresSettle | crates/pharness-api/src/dispatch.rs:3699-3706 | which is so whenever one listing holds all executing intents |
| ReaperWindow.BeyondTheWindow | crates/pharness-api/src/dispatch.rs:3699-3706 | with one more lost execution than a listing holds, the second pass still fails one |
| ReaperLosses.FailuresAreAccounted | crates/pharness-api/src/dispatch.rs:3737-3805 | in any history of single reads and writes the reaper fails an execution at most as often as its Job was recorded or a late write restored it |
| ReaperRestorations.FailedAgainAndAgain | crates/pharness-api/src/app/pipeline/execution.rs:214-327 | and this is reached: without any recording, n reports that read before a pass and write after it have one execution failed n times and waited for again |
| ReaperReturns.FailsAgainExactly | crates/pharness-api/src/app/pipeline/execution.rs:214-327 | between passes an execution can be failed once more, without its Job being recorded again, exactly when the intent's document still records it or a prepared write carries it |
| ReaperLosses.OlderExecutionIsLeftAlone | crates/pharness-api/src/dispatch.rs:3908-3924 | once neither the intent nor any prepared write records the older execution and no failure of it is due, it is never failed until its Job is recorded again |
| ReaperLosses.OlderExecutionComesBackLate | crates/pharness-api/src/dispatch.rs:3908-3924 | an execution that is not at stake is failed, without a recording, at most as often as a late write restores it |
| ReaperLateWrites.LateWriteDiffersExactly | crates/pharness-api/src/dispatch.rs:3744-3781 | after any writes since its check, a write changes what a check at the moment of the write would have protected exactly when some status or some document among them ended the wait, none after it took that back, and they did not leave that same failure |
| ReaperLateWrites.LateWriteInThePass | crates/pharness-api/src/dispatch.rs:3744-3781 | the same of a pass with other writers between the check and the write, in terms of the writes they made |
| ReaperLateWrites.EndsTheWait | crates/pharness-api/src/app/pipeline/execution.rs:214-327 | which prepared writes end the wait, from what they do and what they read: all dispatches, retries, decisions, stalings and new proposals, all outcomes but a submission that read this Job, and evidence and observations that read another |
| ReaperLateWrites.StaledIsOverwritten | crates/pharness-api/src/app/source/work_plans.rs:515-550 | a staling between check and write is overwritten |
| ReaperLateWrites.RacingDispatchIsDestroyed | crates/pharness-api/src/app/pipeline/execution.rs:50-94 | a dispatch that checked the intent while it was approved replaces the wait and is then destroyed |
| ReaperLateWrites.LateWriteHitsNewer | crates/pharness-api/src/dispatch.rs:3744-3781 | a late write destroys another execution, recorded or still being dispatched, exactly when a write since the check brought that one, none after it replaced it, and the status is executing |
| ReaperLateWrites.LateWriteCounterexample | crates/pharness-api/src/dispatch.rs:3744-3781 | such a history exists |
| ImageReference.ImageParts | scripts/campus_image_policy.py:97-103 | a repository and a digest put together form an immutable reference and are read back from it |
| ImageGrammar.ImmutableIs | scripts/campus_image_policy.py:25-31 | the policy's pattern matches exactly a host of words with an optional port, one or more path components, and a SHA-256 digest of 64 small hexadecimal digits |
| ImageGrammar.ParsedIs | scripts/campus_image_policy.py:97-103 | what is read are the parts of such a text, in front of at most one line break |
| PolicyExceptions.ValidateExceptions | scripts/campus_image_policy.py:136-177 | accepts exactly the documents of well-formed entries with distinct keys, and names the first offending entry |
| PolicyExceptions.EntrySound | scripts/campus_image_policy.py:151-172 | an entry passes the chain of checks exactly when it has the eight fields, the patterns, two people, a reason and at most ninety days |
| PolicyEntries.EntryIs | scripts/campus_image_policy.py:151-172 | the checks pass exactly an entry with the eight filled text fields, an identifier and a repository put together as their patterns say, two people who differ in more than case and spaces, a reason of twenty characters, and lasting dates |
| PolicyEntries.ReadIs | scripts/campus_image_policy.py:136-177 | the exception read from it carries those texts and the number of its last day |
| PolicyDates.NextDayIsNext | scripts/campus_image_policy.py:106-112 | consecutive days of the calendar have consecutive numbers |
| PolicyDates.ParseDateIs | scripts/campus_image_policy.py:106-112 | a date is read exactly from four, two and two digits that name a day of the calendar |
| PolicyDates.LastsIs | scripts/campus_image_policy.py:165-172 | an exception lasts exactly from one written day to another one that is one to ninety days later |
| PolicyExceptions.KeyNamesTriple | scripts/campus_image_policy.py:132-133 | without bars in identifier and repository a key names one triple |
| PolicyExceptions.ForeignKeyExactly | scripts/campus_image_policy.py:132-177 | an accepted document can hold an exception for something else under a finding's key exactly when the finding's identifier can be split at a bar behind a vulnerability identifier |
| ImagePolicy.ApplyPolicy | scripts/campus_image_policy.py:225-255 | the loop judges the findings in place and its counters are the report on the judged findings |
| PolicyLaws.ReportConserves | scripts/campus_image_policy.py:225-255 | severity counts and disposition counts each add up to the total, and the blocking count is the number of listed blocking findings |
| PolicyLaws.ReportCounts | scripts/campus_image_policy.py:225-255 | every number of the report is the number of positions with that severity, fix or disposition, and it approves exactly when no position blocks |
| PolicyLaws.ClassifyIs | scripts/campus_image_policy.py:185-199 | the first-match search gives each disposition exactly its condition in severity, fix state and the exceptions as a set |
| PolicyLaws.LiveIsForThisFinding | scripts/campus_image_policy.py:192-198 | under an accepted document, a finding whose identifier cannot be split that way is covered exactly when the document holds an unexpired exception for this identifier, package and repository |
| PolicyLaws.ForeignCoverExactly | scripts/campus_image_policy.py:132-198 | some accepted document excepts a serious finding with a fix, without an exception for it, exactly when its identifier can be split that way |
| PolicyLaws.KeysCollide | scripts/campus_image_policy.py:132-198 | a finding under `CVE-1`, a bar and `a`, in package `b`, is excepted by an accepted exception for `CVE-1` in package `a`, a bar and `b` |
| PolicyLaws.ApprovedIffCovered | scripts/campus_image_policy.py:242-244 | approved exactly when every critical or high finding with a fix has a live exception |
| PolicyLaws.UsedKeysAre | scripts/campus_image_policy.py:229-254 | the exceptions used are exactly the live keys of such findings |
| PolicyLaws.ReapplyReproduces | scripts/campus_image_policy.py:312-316 | judging judged findings again reproduces every disposition and key |
| PolicyLaws.OrderIsIrrelevant | scripts/campus_image_policy.py:185-199 | permuting accepted exceptions changes nothing |
| PolicyLaws.EarlierDaysApprove | scripts/campus_image_policy.py:195-198 | an approval on one day holds on every earlier day |
| PolicyLaws.ApprovalLasts | scripts/campus_image_policy.py:312-316 | with other exceptions on another day the approval holds exactly when every exception it used is live then |
| PolicyLaws.MoreExceptionsApprove | scripts/campus_image_policy.py:136-199 | adding accepted exceptions anywhere never turns an approval into a block |
| ImageEvidence.ReapplyIsStable | scripts/campus_image_policy.py:271-316 | re-applying with the same exceptions and day reproduces decision, summary and keys of an evaluated predicate |
| ImageEvidence.CollectedEntriesPass | scripts/campus_image_gate.py:645-727 | the single comparison of decisions is enough: a collected entry passes every check the repository makes of an entry the same day |
| ImageEvidence.ApprovedEntriesAge | scripts/campus_image_gate.py:966-986 | with other exceptions on another day an approved entry passes exactly when the policy still approves it |
| ImageEvidence.KeyErrorsAre | scripts/campus_image_gate.py:979-984 | there is no exception error exactly when every key relied on is live |
| ImageEntries.EvaluatesExactly | scripts/campus_image_policy.py:271-316 | a report is evaluated exactly for a readable image, a full revision, accepted exceptions and a valid scan |
| ImageEntries.CollectsExactly | scripts/campus_image_gate.py:645-727 | an entry is collected exactly when run, registry and predicate agree on image, revision, digests and decision and the signatures fit it, and its fields say what the predicate says |
| ImageEntries.EntryAccepted | scripts/campus_image_gate.py:936-990 | the check finds nothing wrong exactly with an entry whose fields agree with its reference and whose status, approved, blocked or revoked, has what it asks for |
| ImageRecord.Record | scripts/campus_image_gate.py:735-742 | the entry replaces all entries of its image, the list is sorted, and the allowlist changes for this image only |
| ImageRecord.RecordsCommute | scripts/campus_image_gate.py:735-742 | recording two different images in either order gives the same list |
| ImageRecord.CheckImages | scripts/campus_image_gate.py:936-990 | the walk reports for every entry exactly its own errors and whether its image was recorded before, and nothing exactly when every entry is accepted and no two name one image |
| ImageAdmission.AdmitsExactly | scripts/campus_image_gate.py:855-895 | a request is admitted exactly when the object has a Pod specification in the place of its kind and every image of a container, init container or ephemeral container that the stored object does not have is an immutable reference and on the list; a missing image counts as the empty text |
| ImageAdmission.AllowedIsInForce | scripts/campus_image_gate.py:745-820 | what may be added at any time is exactly what the last publication approves whose approved images could all be read |
| ImageAdmission.LastRequestStands | scripts/campus_image_gate.py:855-895 | over any history a workload is exactly the object of the last request that was let into its place and not deleted since |
| ImageAdmission.EveryImageWasApproved | scripts/campus_image_gate.py:745-895 | over any history every image of every stored workload was immutable and approved at the request that brought it into that workload, and has stayed since |
| ImageAdmission.UpdatesWithoutNewImagesPass | scripts/campus_image_gate.py:860-879 | an update that adds no image is admitted whatever the list says |
| ImageAdmission.RevokedStaysOut | scripts/campus_image_gate.py:855-895 | while an image is off the list no workload that lacks it gains it |
| Yaml.PrintYaml | scripts/campus_image_gate.py:765-793 | the recursion over appended lines, with the splice after a dash, prints the text |
| YamlTheorem.TextIsLines | scripts/campus_image_gate.py:765-793 | the printed text, with its splice by trimming, is the joined lines of the value at that indent |
| YamlTheorem.Shift | scripts/campus_image_gate.py:765-793 | for every value, the lines at a deeper indent are the same lines moved right |
| YamlExact.ReadsBackExactly | scripts/campus_image_gate.py:753-793 | for every value, printing from the left margin and reading gives it back exactly when its keys are plain, its strings fit their printed form, no list holds an empty container and it is not an empty container itself |
| YamlExact.BlockTextExact | scripts/campus_image_gate.py:771-773 | a text with line breaks under a key comes back exactly when its characters are printable, it does not end in a break and its first non-empty line is not indented |
| YamlExact.QuotedExact | scripts/campus_image_gate.py:753-762 | a quoted string comes back exactly when each character fits one 16-bit escape |
| YamlExact.EmptyContainerPrintsAsText | scripts/campus_image_gate.py:783-793 | an empty container inside a list prints like a string, so no reader can tell them apart |

## Left out

* `graph` and `module_name`: reading files, finding inline modules and their scopes; the graph is given.
* The order in which the script lists cycles, errors and dictionary entries: sorted lists are sets here, except the evidence record.
* Unicode white space, word characters and case folding: white space is ASCII, `str.lower` folds ASCII letters, and what counts as a word character before a raw string is a parameter.
* A lone `\r` as a line break and the tabulator rules of YAML; floats in printed values.
* Work-item attempts outside Repo Mode, workspace evidence, grants, approvals, audit events and observations.
* The approval of a budget extension beyond raising the allowance and queueing the Run, and the operator's retry of a dispatch that queues a failed Run again.
* Hosted continuations: the hosted controller continues a chain from a recorded predecessor outside any callback (`app/hosted_controller/operations.rs:82`).
* Budget.UseNeverFalls: takes a callback and the approval of a budget extension as one step each, although the approval (`app/runs.rs:888-912`) does not take the finalization lock; an approval between the read and the write of one callback, which would undo the raised allowance, is no history there, nor in Finalization.EveryInterleaving.
* PipelineIntents beyond status, execution, Job name, state and error: a proposed body that names an execution itself, the evidence and attempt limit a retry asks for, and the state a hosted build's failed report gets.
* Operator cancellation, operator revisions of a ChangeSet, and corrections that start a new chain.
* Evidence the finalizer reads: events, artifacts and retrieval records are given values; hashes are equality of what is hashed.
* The checks made before a stage is dispatched: one flag says whether they pass.
* Manifests, labels other than the Run label, workspace claims and the process calls of the dispatcher: a failing call is a step that ends the dispatch.
* Real time: the hand-over timeout is a number of looks, and days are numbers.
* Jobs with more than one active Pod: the listing functions add up any number, the protocol's Jobs have one each.
* The onboarding part of the reaper of worker Jobs.
* `compact_findings`, the scanner's report and the SBOM facts: findings and a flag for a valid scan are given.
* Signatures, attestations and the registry: what verifies is given.
* The key, payload and rendered-manifest checks of the repository check.
* `UTF-8`: lengths in bytes are computed from the code points.
* PolicyExceptions.ValidateExceptions: does not distinguish 1 from other values equal to 1 as the schema version.
* ImageRecord.Sort: does not state that equal keys keep their order, because the list is determined by its content once keys are distinct.
