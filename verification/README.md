# SupportMaster control plane: a verified model

SupportMaster lets language-model agents investigate support tickets, but what happens to a
repository, a ticket or a customer is decided by deterministic code: gates, scoped grants, executors
that re-check a grant before every step, a redactor, a rate limiter, an archiver, a repository
discovery service and an integration gateway. This project models that code in Dafny and proves what
it promises. Whatever an agent, an adapter, a provider, the clock or git may answer is arbitrary.

| file | what it models |
|---|---|
| `Control.dfy`, `Publication.dfy`, `GitHubResult.dfy` | the grant check, the five-step publication protocol, its translation for the audit trail |
| `Gates.dfy`, `Workflow.dfy`, `RootCause.dfy` | the deterministic gates, the mutable workflow state, whole runs of the gated graph |
| `Engineering.dfy`, `TextFiles.dfy`, `Paths.dfy`, `GitAdapter.dfy` | the engineering executor with snapshot and rollback, reading and replacing text, the git adapter's scope check |
| `Archiver.dfy` | the rolling case archiver, write by write, with a crash possible before each write |
| `RateLimiter.dfy` | token buckets over unbounded traces, one bucket per tenant |
| `Patterns.dfy`, `SecretPatterns.dfy`, `RewritePass.dfy`, `PrefixPass.dfy`, `AccessKeyPass.dfy`, `Redaction.dfy`, `Evidence.dfy` | the four secret patterns as regular expressions, the rewriting passes, the evidence bundle |
| `SecretForms.dfy`, `FirstSecret.dfy` | the secrets written out letter by letter, and what becomes of the first one in a text |
| `PassPieces.dfy`, `ValuesInPass.dfy`, `HiddenValues.dfy` | what a redacted text still tells about a masked value |
| `RepoRefs.dfy`, `Contributions.dfy`, `CodeHits.dfy`, `Candidates.dfy`, `Ranking.dfy` | repository keys, what one signal contributes, the candidate map, ranking and selection |
| `Providers.dfy`, `Signals.dfy`, `CodeSearches.dfy`, `Scores.dfy`, `Discovery.dfy`, `CallBudget.dfy` | providers' listings and code searches, the four signals, what they come to, the discovery service, when it stays within its call budget |
| `CircuitBreakers.dfy`, `Integrations.dfy` | the circuit breaker, the gateway, the in-memory adapters behind it |
| `RelatedCases.dfy` | case tokens, related cases, token search |
| `Wrappers.dfy`, `Sorting.dfy`, `Strings.dfy`, `Counting.dfy` | shared vocabulary |

`dafny verify dfyconfig.toml` checks everything.

## How the model is built

- Code that changes state is a class whose methods are proved against a function or relation on
  values (`View`, `After`, `Added`, `Completed`, `Serve`); the laws are then lemmas about those.
- Beside each such function stands a description that does not use it: the labels letter by letter
  (`SecretForms`), the order of the calls in a log (`Publication.Orderly`), a candidate's score counted
  over what was listed and matched (`Scores.AddsUp`), the cut of a text (`TextFiles.IsCut`). The methods
  promise both.
- A protocol over unknown adapters takes a *script*: the k-th grant check sees the k-th reading of
  clock and grants, the k-th adapter call gets the k-th reply. All theorems are for every script, so
  for every schedule of expiry, revocation and failure.
- The archiver's writes are steps with a budget: the process dies exactly when it runs out. Runs are
  sequences of saves and bundles, each bundle stopped anywhere.
- Times, token amounts and scores are real numbers. Text is a sequence of Unicode characters.

## Where the code and its description differ

Each item names a lemma with the exact condition under which the code keeps its promise, and where
there is one a lemma or method with a concrete failure.

- Rollback restores a file only if it had no carriage return, because the snapshot is taken in text
  mode (`Engineering.FailedRestoresIff`; failure: `Engineering.CarriageReturnIsLost`).
- Preflight keeps a commit inside the approved paths unless the list approves a whole directory by
  its `dir/` entry (`GitAdapter.ScopeIsExactIffNoDirectory`; failure: `GitAdapter.DirectoryLeaks`).
- The discovery scope gate says every declared item must match and accepts a plan when one does
  (`Gates.ScopeCheckKeepsPromiseIffUnmixed`; failure: `Gates.MixedPlanPasses`).
- Issuing a grant does not tie its scope to the decided action. A caller is safe exactly when it
  passes the decided action, or a scope that needs no evidence (`Workflow.IssueIsSafeIff`; failure:
  `Workflow.UntiedScopeIsUnsafe`). Whole-run safety is about the graph's own nodes, which pass the
  decided action.
- The GitHub result is truthful for every run exactly when commit, push and pull request receipts
  carry their own type and the other two none of those (`GitHubResult.ConsistentIffTruthful`;
  failure: `GitHubResult.MislabelledReceiptMisreports`).
- Redaction covers the content of evidence. Names, source URIs and source types reach the agent as
  they are, so an analysis is free of secrets exactly when those were
  (`Evidence.EvidenceIngestor.ShowsNoSecretIff`; failure: `Evidence.LabelsLeak`, with any secret, such
  as `Redaction.PasswordIsASecret` has).
- A redacted text can still tell something about a password or an API key, because a value is text to
  the earlier passes. It tells nothing exactly when the value is hidden at all and what follows it
  leaves the earlier patterns nothing to take; authorization values are always forgotten
  (`HiddenValues.ValueIsForgottenIff`; failures: `HiddenValues.LaterTextTells`, and
  `HiddenValues.MaskedWordShowsPassword`, where a password is not masked at all).
- An explicit batch number may overwrite a recorded archive (`Archiver.ArchivedCaseSurvivesIff`;
  failure: `Archiver.ExplicitNumberLosesACase`).
- Archived cases are marked by case id alone. No case is ever archived twice exactly when no two
  tenants share a case id (`Archiver.ArchivedOnceIff`; failure: `Archiver.SharedIdIsArchivedTwice`).
- A bucket can come to hold more than its capacity by negative requests, and only by those
  (`RateLimiter.StaysWithinCapacityIff`). The window law holds all the same.
- Code search tests the call budget and never charges it. From an empty cache a discovery stays
  within `max_workspace_calls` for all providers exactly when it never searches or the limit is one
  (`CallBudget.StaysWithinIff`, and `CallBudget.StaysWithinFromAnyCacheIff` for any cache; failure:
  `Providers.DefaultBudgetIsExceeded`). What a provider can cost at most is
  `Providers.SearchCallsAreBounded`.
- The reported number of workspace calls counts one for each provider, however many pages were
  fetched. With nothing cached and budget left it is right exactly when every listing ended with its
  first page (`CallBudget.ReportIsExactIff`; failure: `CallBudget.CachedPageIsReported`).
- A candidate's score must not be negative when it is first added. So discovery raises exactly when an
  archived repository with less than two points of its own is first listed and no mapped or
  remembered key finds it (`Signals.RaisesIff`); for contributions in general it depends on their
  order (`Candidates.SucceedsIffFirstsAreNonNegative`, `Candidates.EveryOrderSucceedsIff`).
- A key does not identify a repository when workspace and repository can also be told apart at
  another slash (`RepoRefs.KeyIsSharedIff`; failure: `RepoRefs.SubgroupsCanCollide`).
- A candidate appears twice in the final ranking exactly when the disambiguator lists a known
  repository twice (`Ranking.RepeatsOnlyWhatIsListedTwice`). The low-confidence candidates are never
  appended after disambiguation: the list they are taken from has none left
  (`Ranking.FinalIsReordered`).
- A policy refusal of the call that the breaker let through as its probe blocks the gateway for good
  (`Integrations.WedgedForever`). A run gets there exactly when some call wasted a probe
  (`Integrations.WedgesIff`); callers can never get there exactly when they offer nothing that is
  refused, or nothing that is let through and can raise (`Integrations.NeverWedgesIff`; failure:
  `Integrations.DryRunCanWedge`).

## Model

| member | source | states |
|---|---|---|
| Control.FindGrant | supportmaster/execution/publication.py:36-52 | the first grant for the scope that is active, of this run or of none, and not expired at this reading; none exactly when every grant is for another scope, revoked, another run's or expired |
| Publication.World.RequireGrant | supportmaster/execution/publication.py:54-62 | every check reads clock and grants afresh and refuses exactly when no grant covers at that reading |
| Publication.Execute | supportmaster/execution/publication.py:64-156 | for every plan and every surroundings: exactly the calls the protocol allows, in order; a commit only after a successful preflight of the same paths, a push only after the commit, a pull request only for the branch pushed, verification only of the one opened; each right after a successful check, none twice, nothing for a plan that may not be published, and no end without a reason; it raises exactly when an adapter raises or the verified pull request's id is no integer; otherwise the receipts are the answers in order, and status, commit and pull request are what the log says |
| Publication.ProtocolIsOrderly | supportmaster/execution/publication.py:98-142 | a log of the protocol is ordered so: every call rests on a success before it that has the same paths, branch or id |
| Publication.ReportIsTruthful | supportmaster/execution/publication.py:98-156 | the status, the commit and the pull request of a result are those of the log and its answers |
| Publication.ReachesIsUnique | supportmaster/execution/publication.py:64-156 | the surroundings determine how many calls are made |
| Publication.StatusIsExact | supportmaster/execution/publication.py:64-156 | BLOCKED, FAILED, PARTIALLY_PUBLISHED and PUBLISHED each hold exactly for their prefix of successful steps |
| Publication.RevocationCutsTheRun | supportmaster/execution/publication.py:54-139 | losing the grant before the k-th check leaves exactly the first k calls the run would have made with the grant kept, same arguments, same order |
| Publication.RefusedMidway | supportmaster/execution/publication.py:103-139 | a grant lost between two steps stops the run there, with the receipts so far and the refusal |
| Publication.StepFailed | supportmaster/execution/publication.py:98-148 | a failed step ends the run with its receipt and its error |
| GitHubResult.ConsistentIffTruthful | supportmaster/execution/publication.py:169-226 | the translation of every run is consistent - created implies pushed implies committed, files and commit hash are there exactly when the commit succeeded, PUBLISHED exactly when all five steps did, the next action fits - exactly when the adapters label truthfully |
| GitHubResult.FindInReport | supportmaster/execution/publication.py:176-182 | with truthful labels the receipt found for a step is that step's reply, and absent exactly when the step was not called |
| GitHubResult.MislabelledReceiptMisreports | supportmaster/execution/publication.py:176-202 | a preflight receipt labelled as a push makes a failed commit come with a completed push |
| Gates.EvaluateReviewGate | supportmaster/control_gates.py:67-127 | implementation is authorized exactly when no finding that requires action is high or critical, and the review is approved with all six checks, or auto-approval applies; a stop names blockers |
| Gates.EvaluateValidationGate | supportmaster/control_gates.py:358-401 | publishing is ready exactly when validation and complete executed tests passed |
| Gates.ScopeViolation | supportmaster/control_gates.py:130-169 | a violation exactly when discovery selected something, something is declared, and no declared item names it |
| Gates.ScopeCheckKeepsPromiseIffUnmixed | supportmaster/control_gates.py:130-169 | the check does what its description says exactly when the declared items are all in scope or all out of it |
| Gates.MixedPlanPasses | supportmaster/control_gates.py:163-168 | a plan with one item in scope and one outside passes |
| Gates.EvaluateActionPolicy | supportmaster/control_gates.py:172-307 | each action is allowed exactly on its evidence; pauses and requests for information exactly where stated; allowed exactly when nothing blocks |
| RootCause.HardeningSettles | supportmaster/control_gates.py:425-474 | HIGH is kept exactly for a determined, confirmed cause with facts, no unknowns and a repository; what any other becomes, field by field; hardening twice changes nothing |
| Workflow.RunState.AppendGateHistory | supportmaster/workflow_state.py:193-218 | one record is appended, nothing else changes |
| Workflow.RunState.AppendPolicyDecision | supportmaster/workflow_state.py:221-229 | one decision is appended, nothing else changes |
| Workflow.RunState.IssueAuthorization | supportmaster/workflow_state.py:232-259 | a grant for the scope is appended exactly on an ALLOW decision; otherwise it raises and nothing changes |
| Workflow.RunState.AppendOperationReceipts | supportmaster/workflow_state.py:262-269 | the receipts are appended, nothing else changes |
| Workflow.RunState.AuthorizationGate | supportmaster/workflows/publishing_gate_workflow.py:93-110 | decision and gate record are kept, and a grant for that very action is issued exactly when the state justifies it |
| Workflow.PublishVerified | supportmaster/workflows/publishing_gate_workflow.py:219-269 | executing a publication on the state is a step of a run |
| Workflow.EngineerVerified | supportmaster/execution/engineering.py:102-105 | executing an engineering change on the state is a step of a run, whatever the labels of git's and the tests' receipts |
| Workflow.GrantsAreJustified | supportmaster/workflow_state.py:232-259 | in every run every grant was issued by an earlier gate for its own scope, whose state justified it |
| Workflow.CommitWasJustified | supportmaster/control_gates.py:206-288 | in every run a successful commit receipt comes after a publish gate with a clean duplicate check, passed validation, complete executed tests and an allowed publish plan; or it is git's or the tests' own answer to an engineering run, under that label, after a justified implementation gate |
| Workflow.ChangeWasJustified | supportmaster/control_gates.py:227-264 | in every run a successful source change comes after a justified implementation gate; or it is a publication adapter's receipt, under that label, after a justified publish gate |
| Workflow.HistoryOnlyGrows | supportmaster/workflow_state.py:193-269 | no step removes a decision, gate record, grant or receipt |
| Workflow.UntiedScopeIsUnsafe | supportmaster/workflow_state.py:247-255 | with the ALLOW decision of an investigation a PUBLISH grant is issued on no evidence |
| Workflow.IssueIsSafeIff | supportmaster/workflow_state.py:247-255 | whatever the state, issuing on an allowed decision keeps all grants justified exactly when the scope is the decided action, or needs no evidence, or the decision can never be ALLOW |
| Engineering.LocalDemoCodeChangeAdapter.Apply | supportmaster/execution/local_demo.py:65-111 | the approved target is rewritten and its text snapshotted exactly when it exists and holds the old snippet; its text is cut at every old snippet, from left to right, and joined with the new one, which is there afterwards; else nothing changes |
| Engineering.LocalDemoCodeChangeAdapter.Rollback | supportmaster/execution/local_demo.py:113-133 | the snapshot is consumed, and written back exactly when there is one and the file still exists |
| Engineering.Execute | supportmaster/execution/engineering.py:48-91 | status, files, every receipt in order and the rollback flag at the end, for every grant schedule, preflight answer and effect of the tests; a change made is that patch of the target and touches no other file |
| Engineering.ValidatedIff | supportmaster/execution/engineering.py:48-91 | files change only under the grant at both checks, with a ready plan, a scope inside the repository that names the target, a clean preflight and the snippet there; VALIDATED means exactly this, a third check and passing tests, and leaves the patched file as the tests did |
| TextFiles.ReplacedIsUnique | supportmaster/execution/local_demo.py:101 | replacing gives just the text cut at every occurrence from left to right - at an empty one around every character - joined with the new text |
| TextFiles.CutIsUnique | supportmaster/execution/local_demo.py:101 | there is only one such cut |
| TextFiles.OneOccurrence | supportmaster/execution/local_demo.py:101 | a single occurrence is replaced where it is and nothing else changes |
| TextFiles.ReplacedContainsNew | supportmaster/execution/local_demo.py:89-101 | where there was something to replace the new text is there |
| TextFiles.ReadsAsIff | supportmaster/execution/local_demo.py:89 | text mode replaces carriage return and line feed, then every carriage return left, by a line feed |
| Engineering.ReceiptsAreHonest | supportmaster/execution/engineering.py:48-91 | no receipt of the executor's own claims a commit, or a change that was not made; none succeeds before the first grant check |
| Engineering.BlockedLeavesFilesAlone | supportmaster/execution/engineering.py:48-72 | a BLOCKED run changed no file |
| Engineering.FailedRestoresIff | supportmaster/execution/engineering.py:76-91 | a FAILED run leaves every file as it was exactly when it made no change, or the tests kept to the target and did not delete it and the file had no carriage return |
| Engineering.OnlyTargetChanges | supportmaster/execution/engineering.py:48-91 | a VALIDATED or PARTIAL run changed an approved target inside the repository, and left every other file alone exactly when the tests did or the grant was lost before they ran |
| Engineering.CarriageReturnIsLost | supportmaster/execution/local_demo.py:113-127 | for every adapter and every file with a carriage return that it can change there is a run whose rollback reports success and leaves another text |
| TextFiles.ReadTextIsExactIffNoReturn | supportmaster/execution/local_demo.py:89-101 | reading in text mode is exact exactly without carriage returns |
| GitAdapter.Repository.Preflight | supportmaster/execution/adapters.py:76-126 | succeeds exactly when git answers, every approved path stays inside and every change shown is approved: staged and modified files by their path, an untracked one by its path or by the first directory above it that holds nothing tracked; changes nothing |
| GitAdapter.Repository.Commit | supportmaster/execution/adapters.py:128-160 | the commit holds exactly what was staged and every changed or new file that an approved pathspec selects, all other changes stay in the tree; a failed add changes nothing, a failed commit leaves the added files staged |
| GitAdapter.ShowsOnlyIff | supportmaster/execution/adapters.py:100-126 | what status prints is approved exactly when those paths and directories are |
| GitAdapter.CommitStaysInScope | supportmaster/execution/adapters.py:76-160 | after a successful preflight every committed path is approved or lies in an approved directory, and none leaves the repository |
| GitAdapter.CommitIsNoLarger | supportmaster/execution/adapters.py:76-160 | without a directory entry the commit holds no more files than were approved |
| GitAdapter.ScopeIsExactIffNoDirectory | supportmaster/execution/adapters.py:76-160 | only approved paths are ever committed exactly for lists that approve no directory as a whole, or that preflight refuses |
| GitAdapter.DirectoryLeaks | supportmaster/execution/adapters.py:76-160 | with an approved directory some unapproved file gets committed |
| GitAdapter.PreflightThenCommit | supportmaster/execution/publication.py:98-110 | preflight then commit on an untouched repository commits nothing outside the approved paths and directories |
| Paths.JoinIsInjective | supportmaster/execution/adapters.py:76-90 | an approved path names one file |
| Archiver.RollingCaseArchiver.SaveCaseBundle | supportmaster/archival/archiver.py:78-127 | the folder has the new files and the earlier ones without a new version; its time is renewed only by a new file or for a new folder; nothing else changes |
| Archiver.RollingCaseArchiver.GetUnarchivedCaseIds | supportmaster/archival/archiver.py:129-143 | exactly the cases with a folder that has a `case.json` and no mark of the tenant, each once, none changed later than one after it |
| Archiver.RollingCaseArchiver.CreateArchiveBundle | supportmaster/archival/archiver.py:145-245 | whatever write the process dies at, the disk is one the bundle may reach; without a crash there is one more record and zip, numbered as asked or one more than the tenant's archives, with every folder's files, the folders gone and the cases marked, and all else as before; it crashes only when its writes run out, which are at most 3n + 4 |
| Archiver.CompletedIsArchived | supportmaster/archival/archiver.py:189-240 | a completed bundle removes, zips and marks exactly its cases, and its number follows the count of the tenant's archives |
| Archiver.RollingCaseArchiver.Stage | supportmaster/archival/archiver.py:189-193 | the staged copies are the folders that exist, one write each |
| Archiver.RollingCaseArchiver.WriteZip | supportmaster/archival/archiver.py:211-216 | only the bundle's own zip changes |
| Archiver.RollingCaseArchiver.Store | supportmaster/archival/archiver.py:220-234 | the record is stored before the marks |
| Archiver.RollingCaseArchiver.Prune | supportmaster/archival/archiver.py:236-240 | only the bundle's own folders are removed |
| Archiver.RollingCaseArchiver.CheckAndArchive | supportmaster/archival/archiver.py:247-259 | the archived ids and the leftover, concatenated, are the pending list, so no archived case was changed later than one left over; every batch is full, the leftover is not; what happened to the disk is a run; no crash with seven writes a pending case left |
| Archiver.RollingCaseArchiver.ForceArchive | supportmaster/archival/archiver.py:261-266 | all pending cases go into one archive, those changed longest ago first; with none nothing happens; no crash with enough writes left |
| Archiver.DefaultNameIsUnrecorded | supportmaster/archival/archiver.py:157-158 | the default batch number names no recorded archive |
| Archiver.BundleLosesNothing | supportmaster/archival/archiver.py:145-245 | a bundle stopped anywhere loses no case |
| Archiver.BundleKeepsNumbers | supportmaster/archival/archiver.py:157-158 | recorded batch numbers stay at most the number of archives |
| Archiver.NoRunLosesACase | supportmaster/archival/archiver.py:78-266 | in every run of saves and interrupted bundles every case is, with all files of its last save, in its folder or in the zip of a record of its tenant |
| Archiver.ArchivesAreImmutable | supportmaster/archival/archiver.py:157-216 | a recorded archive stays recorded and its zip is never written again |
| Archiver.NamesAreUnique | supportmaster/archival/archiver.py:157-182 | no two archives of a run have the same name |
| Archiver.ArchivedCaseSurvivesIff | supportmaster/archival/archiver.py:157-216 | with a chosen batch number an archived case survives exactly when the name is not that of its archive |
| Archiver.ExplicitNumberLosesACase | supportmaster/archival/archiver.py:157-216 | two bundles of one day, both numbered 1, lose the first case |
| Archiver.NoCaseIsArchivedTwice | supportmaster/archival/archiver.py:247-266 | every run without crashes keeps all marks truthful, and no case archived twice as long as no id is archived for two tenants |
| Archiver.ArchivedOnceIff | supportmaster/archival/archiver.py:78-266 | for any set of cases: every crash-free run that saves none but these archives each at most once for its tenant exactly when no two of them share an id under different tenants |
| Archiver.SharedIdIsArchivedTwice | supportmaster/persistence/run_store.py:1139-1148 | for any two tenants and any id they share a crash-free run archives the case twice |
| RateLimiter.TokenBucket.constructor | supportmaster/rate_limiter.py:10-15 | a bucket starts full |
| RateLimiter.TokenBucket.Consume | supportmaster/rate_limiter.py:17-26 | the tokens and what accrued since, up to the capacity; granted exactly when that is enough, and then taken |
| RateLimiter.TenantRateLimiter.Consume | supportmaster/rate_limiter.py:36-41 | a tenant's bucket is created full on first use; it alone changes, the other tenants' stay as they are |
| RateLimiter.RunValid | supportmaster/rate_limiter.py:17-26 | tokens never fall below zero, and stay within the capacity if no request is negative |
| RateLimiter.StaysWithinCapacityIff | supportmaster/rate_limiter.py:17-26 | requests for a given amount never take the tokens over the capacity exactly when the amount is not negative |
| RateLimiter.RefillIsLeastAllowance | supportmaster/rate_limiter.py:17-26 | the tokens available are exactly the least that any window ending now still allows |
| RateLimiter.GrantedIffEveryWindowAllows | supportmaster/rate_limiter.py:17-26 | a call is granted if and only if no window ending now would exceed capacity plus rate times length |
| RateLimiter.WindowBound | supportmaster/rate_limiter.py:17-26 | in any window of any trace, negative requests included, at most capacity plus rate times length is granted |
| RateLimiter.DeniedCallsAreInvisible | supportmaster/rate_limiter.py:17-26 | leaving out denied calls changes no other outcome |
| RateLimiter.TenantsAreIsolated | supportmaster/rate_limiter.py:29-41 | in any interleaving each tenant gets the answers of a private bucket there from the start |
| Patterns.PrefixEndSound | supportmaster/evidence/ingestion.py:14-19 | what the left-to-right matcher finds is a match of the regular expression |
| Patterns.PrefixEndComplete | supportmaster/evidence/ingestion.py:14-19 | every match of the regular expression is what the matcher finds, so backtracking changes nothing |
| SecretForms.BearerIsLabelled | supportmaster/evidence/ingestion.py:15 | the first pattern's prefix is exactly the letters of authorization in any case, white space, a colon, white space, the letters of bearer, and at least one white space |
| SecretForms.ApiKeyIsLabelled | supportmaster/evidence/ingestion.py:16 | the second's exactly api, an underscore or a hyphen or neither, key, and a colon or an equals sign with white space around it |
| SecretForms.PasswordIsLabelled | supportmaster/evidence/ingestion.py:17 | the third's exactly password, and a colon or an equals sign with white space around it |
| SecretForms.KeyIsAt | supportmaster/evidence/ingestion.py:18 | the fourth's matches are exactly AKIA and sixteen digits or capitals, with no word character before or after |
| SecretForms.LabelledIsMatch | supportmaster/evidence/ingestion.py:14-17 | wherever a label is followed by a value, its pattern matches just there, with all of the value |
| PrefixPass.NoOverlap | supportmaster/evidence/ingestion.py:151-161 | no second match begins inside a match |
| PrefixPass.ScanMasksOnlyValues | supportmaster/evidence/ingestion.py:151-161 | a pass replaces nothing but values that follow a prefix |
| PrefixPass.MasksIffOccurs | supportmaster/evidence/ingestion.py:155-160 | a pass replaces something exactly when its pattern occurs |
| PrefixPass.ScanCleans | supportmaster/evidence/ingestion.py:151-161 | a pass leaves its own pattern, and every pattern clean before, with masked values only |
| AccessKeyPass.KeyPassFrees | supportmaster/evidence/ingestion.py:18 | after its pass no access key is left |
| AccessKeyPass.KeyPassKeepsClean | supportmaster/evidence/ingestion.py:151-161 | the access key pass keeps the other patterns clean |
| Redaction.RedactedIsSecretFree | supportmaster/evidence/ingestion.py:151-161 | for every text, whatever is labelled in the result has `[REDACTED]` as its value, and there is no access key |
| Redaction.FoundAnyIffHeld | supportmaster/evidence/ingestion.py:14-19 | some pattern occurs exactly when the text holds a labelled value or an access key, as written out |
| Redaction.RedactedMasksFirst | supportmaster/evidence/ingestion.py:151-161 | the first secret of every text is masked as a whole, and what comes before it is kept |
| FirstSecret.FirstSecretIsMasked | supportmaster/evidence/ingestion.py:151-161 | the same for the four passes, each over what the others made of the text |
| Redaction.SecretFreeIsFixed | supportmaster/evidence/ingestion.py:151-161 | a text without secrets is left as it is |
| Redaction.RedactionIdempotent | supportmaster/evidence/ingestion.py:151-161 | redacting twice is redacting once |
| Redaction.CountIffFound | supportmaster/evidence/ingestion.py:155-160 | a pass counts a replacement exactly when its pattern occurs, and otherwise copies |
| Redaction.Redact | supportmaster/evidence/ingestion.py:151-161 | the loop computes the redacted text; the flag is raised exactly when the original holds a labelled value or an access key, as written out, and only then does the text change; the first of them is replaced by `[REDACTED]` with all text before it kept and the character after it behind it; no label in the result has any other value, and there is no access key |
| HiddenValues.ValueIsForgottenIff | supportmaster/evidence/ingestion.py:14-17 | for all text around it, after the three prefixed passes all values give the same text exactly when the first pass hides the value, or some pass does and the next value behind the white space that follows, if there is one, is a mask |
| HiddenValues.ForgottenIsForgotten | supportmaster/evidence/ingestion.py:151-161 | then the redacted text is the same for any two values |
| HiddenValues.LaterTextTells | supportmaster/evidence/ingestion.py:14-18 | the text around `password=` and ` = hunter2` is not the same for every value between them |
| HiddenValues.MaskedWordShowsPassword | supportmaster/evidence/ingestion.py:14-18 | when the word password is itself masked as an API key its value is kept |
| Evidence.EvidenceIngestor.IngestText | supportmaster/evidence/ingestion.py:29-59 | over the size limit nothing is kept; otherwise one redacted record is appended, with the original's digest and size, under the name given, or the last component of the URI, or the URI |
| Evidence.EvidenceIngestor.AnalysisContentIsSecretFree | supportmaster/evidence/ingestion.py:89-128 | an agent is shown every artifact in order under its labels, no secret in its content, the first five names, and flags that tell the truth about the content |
| Evidence.EvidenceIngestor.ShowsNoSecretIff | supportmaster/evidence/ingestion.py:46-97 | what an agent is shown is free of secrets exactly when all names, source URIs and source types are |
| Evidence.LabelsLeak | supportmaster/evidence/ingestion.py:46-97 | whatever the content, any secret in the name or in the source type reaches the agent |
| RepoRefs.ParseThenPrint | supportmaster/investigation/discovery.py:391-402 | printing what was parsed gives the key back |
| RepoRefs.PrintThenParse | supportmaster/models/discovery.py:29-38 | parsing what was printed gives the ref back exactly when the workspace id has no slash |
| RepoRefs.ParsesIff | supportmaster/investigation/discovery.py:391-402 | a key parses as a ref exactly when it is its provider, a colon, its workspace without a slash, a slash and its repository, of one of three providers and within the length bounds |
| RepoRefs.KeyIsSharedIff | supportmaster/models/discovery.py:36-38 | another valid ref has the same key exactly when the text after the provider has another slash that leaves valid parts |
| RepoRefs.SubgroupsCanCollide | supportmaster/models/discovery.py:36-38 | two such refs |
| Candidates.CandidateMap.AddCandidate | supportmaster/investigation/discovery.py:404-437 | a first non-negative contribution makes a candidate, a later one is merged, a negative first one raises and changes nothing |
| Candidates.CandidateMap.RecordCodeHits | supportmaster/investigation/discovery.py:360-387 | the hits of the matches are added, never raising |
| CodeHits.HitOfIsHit | supportmaster/investigation/discovery.py:370-387 | the contribution made of the paths matched in a repository is a hit on it: three points a path, two more a specific one, high confidence exactly with a specific one, three paths as evidence, ten kept, under the first ref with the key |
| CodeHits.HitsOfAreHits | supportmaster/investigation/discovery.py:360-387 | one hit for each repository matched and for no other: three points a path, two more a specific one, under the first ref that has the key |
| Candidates.AddAllSummarises | supportmaster/investigation/discovery.py:404-437 | score is the sum, confidence the maximum, sources the duplicate-free union of the contributions with the key; evidence and paths are all kept |
| Candidates.OrderIsInvisible | supportmaster/investigation/discovery.py:404-437 | two orders that both succeed give the same keys, scores, confidences, sources and paths |
| Candidates.SucceedsIffFirstsAreNonNegative | supportmaster/models/discovery.py:88-97 | adding raises exactly when some repository's first contribution is negative |
| Candidates.EveryOrderSucceedsIff | supportmaster/models/discovery.py:88-97 | every order succeeds exactly when no contribution is negative |
| Signals.RaisesIff | supportmaster/investigation/discovery.py:123-195 | discovery raises exactly when some listed repository that no mapped or remembered key finds is archived and has less than two points where it is first listed |
| Scores.ListingPoints | supportmaster/investigation/discovery.py:318-357 | a listing with nothing scores nothing; one more term overlapping adds one point, the language one and a half, recency one, and being archived takes two, whatever the rest; MEDIUM exactly with a positive score |
| Scores.CandidateIsExplained | supportmaster/investigation/discovery.py:123-227 | a candidate's score is ten points for each time it is mapped, eight for each time it is remembered, its listings' points, three for each match and two more for each specific one; HIGH exactly when it is known or specifically matched, LOW exactly without match, key and worthwhile listing; its sources are those that found it |
| Scores.CandidatesAreExplained | supportmaster/investigation/discovery.py:123-227 | the candidates are exactly the repositories mapped, remembered, listed or matched, each so explained |
| CodeSearches.AllFindsIff | supportmaster/investigation/discovery.py:204-226 | a match is found exactly by searching some provider for the first term that finds anything there |
| Candidates.MergePaths | supportmaster/investigation/discovery.py:432-434 | the union of the paths, old ones first, without new repeats |
| Ranking.RankCandidates | supportmaster/investigation/discovery.py:234 | every candidate once, by falling score, then by key |
| Ranking.RankingIsUnique | supportmaster/investigation/discovery.py:234 | there is only one such ranking |
| Ranking.DisambiguationKeepsExactly | supportmaster/investigation/discovery.py:241-247 | after disambiguation exactly the positive candidates remain that were listed or not dropped |
| Ranking.DisambiguationOrders | supportmaster/investigation/discovery.py:241-247 | listed candidates come first in the order listed, the others follow best first |
| Ranking.FinalIsReordered | supportmaster/investigation/discovery.py:245-247 | no low-confidence candidate comes back |
| Ranking.SelectionIsBounded | supportmaster/investigation/discovery.py:235-255 | whatever the disambiguator answers, only discovered refs are selected, and none it dropped without listing |
| Ranking.SelectsFew | supportmaster/investigation/discovery.py:252-255 | at most max(1, limit) refs are selected, and none exactly when no candidate is left |
| Ranking.WithoutDisambiguation | supportmaster/investigation/discovery.py:249-255 | the selection is exactly the best positive candidates, or the single best when none is positive |
| Ranking.RepeatsOnlyWhatIsListedTwice | supportmaster/investigation/discovery.py:242-245 | a candidate is repeated exactly when the disambiguator lists a known repository twice |
| Ranking.FinalIsFinal | supportmaster/investigation/discovery.py:234-247 | the ranking stays as it is unless there is an answer and more candidates have a positive score than may be selected; then exactly the positive ones listed or not dropped remain, the listed first |
| Ranking.SelectedIsSelection | supportmaster/investigation/discovery.py:252-255 | selected are the first candidates with a positive score up to the limit, or the very first when that leaves none |
| Discovery.DiscoveryService.ListRepositories | supportmaster/investigation/discovery.py:293-316 | for every provider listing ends; a cached page that has not expired is returned as it is without a call; otherwise calls are made while fewer repositories than the limit are listed, the last reply gave a cursor and budget is left, the first repositories listed are returned, up to the limit, and a successful listing is cached |
| Providers.TakesWhatItAsks | supportmaster/investigation/discovery.py:301-311 | every call of a listing is made under the limit and, after the first, with the cursor of a successful reply; it ends at the budget, the limit, a failed reply or one without a cursor, and only then |
| Providers.ListingTakesOneNumber | supportmaster/investigation/discovery.py:301-311 | the provider, the budget and the limit determine the number of calls |
| Discovery.DiscoveryService.ListAll | supportmaster/investigation/discovery.py:157-168 | every page is what its provider, or the cache left by the listings before it, gives; all providers share one budget; a failed listing only degrades the result |
| Providers.ListedIsShort | supportmaster/investigation/discovery.py:168 | no connection contributes more than the limit |
| Providers.ByConnectionKeepsLast | supportmaster/investigation/discovery.py:157-168 | of every connection the beginning of its last successful page is kept, up to the limit, and nothing of any other |
| Discovery.DiscoveryService.AddKnown | supportmaster/investigation/discovery.py:123-155 | one contribution for each key that parses |
| Discovery.DiscoveryService.ScoreMetadata | supportmaster/investigation/discovery.py:183-195 | one contribution for each listed repository, whose points are those of `Scores.ListingPoints`, or the first rejected one raises |
| Discovery.DiscoveryService.SearchProvider | supportmaster/investigation/discovery.py:207-226 | terms are searched for up to the first that finds something; one call for each, and one more for each repository and each term that has to be searched repository by repository; every match found is recorded in order |
| Discovery.DiscoveryService.SearchEach | supportmaster/investigation/discovery.py:213-222 | one call for each listed repository of a fan-out |
| Discovery.DiscoveryService.SearchAll | supportmaster/investigation/discovery.py:200-227 | the searches of all providers: exactly their calls, all their matches |
| Providers.SearchCallsAreBounded | supportmaster/investigation/discovery.py:204-226 | at most 3 * (1 + max_candidates) search calls for a provider |
| Providers.SearchCallsAre | supportmaster/investigation/discovery.py:204-226 | that number of terms and of calls |
| Providers.FutileSearchReachesTheBound | supportmaster/investigation/discovery.py:204-226 | the bound is reached, whatever is left of the budget |
| Providers.DefaultBudgetIsExceeded | supportmaster/investigation/discovery.py:200-226 | 28 calls under the default budget of 24 |
| Discovery.DiscoveryService.Discover | supportmaster/investigation/discovery.py:95-259 | the listings, the exact number of calls made and the number reported, when it raises; the candidates are exactly the repositories mapped, remembered, listed or matched, with score, confidence and sources counted over those, so that a single listing gives its overlap, one and a half for the language, one for recency, less two when archived; the matches are those of the first term that finds any; ranking and selection are as specified, and it is degraded exactly when a listing failed |
| CallBudget.StaysWithinIff | supportmaster/investigation/discovery.py:200-226 | with an empty cache, a discovery stays within max_workspace_calls for all cases, providers and replies exactly when code search is off, there is no term, or the limit is at most one |
| CallBudget.StaysWithinFromAnyCacheIff | supportmaster/investigation/discovery.py:200-226 | from whatever cache exactly when code search is off, there is no term, or no call is allowed |
| CallBudget.ReportIsExactIff | supportmaster/investigation/discovery.py:256-258 | with distinct connections, nothing cached and budget left over, the calls reported are never more than those made, and as many exactly when every listing ends with its first page |
| CallBudget.CachedPageIsReported | supportmaster/investigation/discovery.py:295-297 | a cached page is reported as one call too many |
| Providers.AllSearchCallsAreBounded | supportmaster/investigation/discovery.py:200-226 | all providers together make at most 3 * (1 + max_candidates) search calls each |
| CircuitBreakers.CircuitBreaker.AllowRequest | supportmaster/operations/circuit_breaker.py:41-51 | open refuses until the recovery time has passed, then one probe is let through |
| CircuitBreakers.CircuitBreaker.RecordSuccess | supportmaster/operations/circuit_breaker.py:53-58 | the circuit closes |
| CircuitBreakers.CircuitBreaker.RecordFailure | supportmaster/operations/circuit_breaker.py:60-66 | the circuit opens at the threshold |
| CircuitBreakers.StaysSound | supportmaster/operations/circuit_breaker.py:41-71 | closed exactly while fewer than threshold operations in a row have failed |
| Integrations.InMemoryStores.Perform | supportmaster/integrations/adapters.py:84-343 | what each in-memory operation changes, and which records it finds |
| Integrations.IntegrationGateway.Execute | supportmaster/integrations/policy.py:56-147 | breaker, payload, allow-list, dry run, operation, record: the world afterwards; operation by operation, the permission and target it needs, the status, the records returned and the one change made |
| Integrations.CallServes | supportmaster/integrations/adapters.py:84-343 | comments and status updates need WRITE_ISSUES on the case, a run TRIGGER_CI on the pipeline, a message SEND_NOTIFICATIONS on the channel, a read its own READ permission; without it, or as a write in a dry run, the call is BLOCKED and changes nothing |
| Integrations.DryRunChangesNothing | supportmaster/integrations/policy.py:101-115 | under a dry run no sequence of calls changes any store, whatever is allow-listed |
| Integrations.OnlyAllowedWritesChange | supportmaster/integrations/policy.py:32-35 | a call that changes a store was a live, allow-listed write that succeeded |
| Integrations.EveryOperationIsRecordedOnce | supportmaster/integrations/policy.py:116-147 | one metric for every call, one breaker record for every operation run, in order |
| Integrations.BlockedCallsAreInvisible | supportmaster/integrations/policy.py:74-116 | unless one of them wastes a probe, the blocked calls of a run can be left out: what ran, the stores and the breaker are the same |
| Integrations.WedgedForever | supportmaster/operations/circuit_breaker.py:46-50 | with a probe in flight that never ends every later call is blocked |
| Integrations.WedgedAfterIff | supportmaster/integrations/policy.py:74-115 | one call leads there exactly when the policy refuses it as the probe |
| Integrations.WedgesIff | supportmaster/integrations/policy.py:74-115 | a run leads there exactly when some call did |
| Integrations.NeverWedgesIff | supportmaster/integrations/policy.py:74-115 | for any set of calls, no run of them at any times wedges a new gateway exactly when none is refused, or none that is let through can raise |
| Integrations.DryRunCanWedge | supportmaster/integrations/policy.py:74-115 | a failed read and a refused notification are enough |
| Integrations.OpenCircuitBlocks | supportmaster/operations/circuit_breaker.py:41-51 | while the circuit is open and not recovered nothing runs |
| RelatedCases.TokensIff | supportmaster/investigation/service.py:45-46 | the tokens are the maximal runs of `a-z0-9_`, three or longer, without the five stop words |
| RelatedCases.SimilarityIsBounded | supportmaster/investigation/service.py:63 | similarity lies between 0 and 1 and is 1 only for the same non-empty tokens |
| RelatedCases.FindRelated | supportmaster/investigation/service.py:53-67 | as many answers as there are related cases, or as the limit takes; each tells of a related case; the most similar first and then by case id, and before every related case left out |
| RelatedCases.MatchTells | supportmaster/investigation/service.py:57-66 | related is another case with the same external id and system, which is a duplicate of similarity one, or with fifteen in a hundred tokens shared, RELATED from thirty-five on, and the share to four places as similarity |
| RelatedCases.RelatedAreBest | supportmaster/investigation/service.py:53-67 | every answer is a match with similarity in [0,1], and no match left out is more similar, or as similar with a smaller case id |
| RelatedCases.RelationIsSymmetric | supportmaster/investigation/service.py:53-66 | matching, relation and similarity are symmetric |
| RelatedCases.RelatedBothWays | supportmaster/investigation/service.py:53-67 | with room for all, a is among b's related cases exactly when b is among a's |
| RelatedCases.Search | supportmaster/investigation/service.py:32-42 | exactly the files that contain a query token, the most tokens first |

## Left out

- The web application, agents, prompts, run control, durable workers and workflow graph wiring: HTTP and UI plumbing, or arbitrary values here.
- Grants a person issues, and the web application's automatic approval: they are made outside the policy functions, so whole-run safety does not speak of them.
- The network adapters (Jira, Linear, Zendesk, Slack, Datadog, GitHub, GitLab, connectors): their receipts are arbitrary replies.
- Case memory and its SQL ranking, the static mapping table and the extraction of search terms: discovery takes the keys and the number of terms they yield. The retriever is taken to return normally.
- The SQLite store beyond the archive tables: the archives list and the marks are a sequence and a map.
- Reading a file into evidence, attaching evidence to a state, and the contracts' validation of malformed documents, grants and plans.
- Concurrency: one call at a time; locks are not modelled, so a probe of the breaker has ended when the next call begins.
- Real git: quoting of unusual path names, renames, the parsing of status lines; which files a pathspec selects is arbitrary. A repository path that is a wholly untracked subdirectory of another work tree, which git shows as `./`. Files that are not text, and platforms that write other line ends.
- A removal of a case folder that fails silently, and a save interrupted between its files: a saved case means a completed save, and removals fail only by a crash.
- Providers that label their receipts otherwise than `WORKSPACE_...`: every listing and every search counts as reported.
- HiddenValues.ValueIsForgottenIff: is about the three prefixed passes; the access key pass may still make two of their results the same.
- Identifiers, timestamps, receipts' details, telemetry payloads and the evidence text of candidates beyond what the contracts name.
- Rounding: times, tokens, scores and similarities are exact reals; similarity is rounded to four places, halves to even, where a binary fraction may round a tie otherwise.
- Case folding of text: gates and the issue search take it as a parameter, related cases and code search take folded text.
- Review findings that are not a list, and duplicate review and publication confirmations that only copy fields into the GitHub result.
- Incident correlation, missing evidence and investigation summaries: field checks without state.
- Archiver.RollingCaseArchiver.CheckAndArchive: requires a batch size of at least one, because the loop does not end otherwise.
- Integrations.InMemoryStores.Perform: the four in-memory adapters share one object here, each touching only its own fields; of what a read returns only the keys or ids found are kept.
