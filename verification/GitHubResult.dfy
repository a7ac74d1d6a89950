/** `build_github_publish_result`: the executor's receipts, translated for the audit trail. */
module GitHubResult {
  import opened Wrappers
  import opened Control
  import opened Publication

  datatype GitStatus = COMPLETED | NOT_STARTED | GIT_FAILED
  datatype PullRequestStatus = CREATED | NOT_CREATED | PR_FAILED
  datatype NextAction = REVIEW_PULL_REQUEST | RETRY_PUBLICATION | STOP

  datatype GitHubPublishResult = GitHubPublishResult(
    status: PublicationStatus, commit: GitStatus, commitHash: Option<string>, push: GitStatus,
    pullRequest: PullRequestStatus, filesPublished: seq<string>, nextAction: NextAction)

  /** `{r.operation_type: r for r in receipts}.get(t)`: the last receipt of that type. */
  function LastOfType(receipts: seq<Receipt>, t: OperationType): Option<Receipt> {
    if receipts == [] then None
    else if receipts[|receipts| - 1].operationType == t then Some(receipts[|receipts| - 1])
    else LastOfType(receipts[..|receipts| - 1], t)
  }

  predicate Ok(r: Option<Receipt>) {
    r.Some? && r.value.status == SUCCEEDED
  }

  function GitStatusOf(r: Option<Receipt>): GitStatus {
    if Ok(r) then COMPLETED else if r.Some? then GIT_FAILED else NOT_STARTED
  }

  function Build(plan: PublishPlan, result: PublicationResult): GitHubPublishResult {
    var commit := LastOfType(result.receipts, GitCommit);
    var push := LastOfType(result.receipts, GitPush);
    var pr := LastOfType(result.receipts, GithubPullRequest);
    GitHubPublishResult(
      result.status, GitStatusOf(commit), result.commitSha, GitStatusOf(push),
      if Ok(pr) then CREATED else if pr.Some? then PR_FAILED else NOT_CREATED,
      if Ok(commit) then plan.files else [],
      if result.status == PUBLISHED then REVIEW_PULL_REQUEST
      else if result.status == PUBLICATION_FAILED || result.status == PARTIALLY_PUBLISHED then RETRY_PUBLICATION
      else STOP)
  }

  // ---------- What the translation finds ----------

  /** The types under which the translation looks receipts up. */
  predicate IsLookedUp(t: OperationType) {
    t == GitCommit || t == GitPush || t == GithubPullRequest
  }

  /** The adapters put these types on their receipts, step by step. */
  ghost predicate Labelled(script: Script, labels: seq<OperationType>)
    requires |labels| == STEPS
  {
    forall k :: 0 <= k < STEPS && script.replies(k).Returned? ==> script.replies(k).receipt.operationType == labels[k]
  }

  /** Commit, push and pull request carry their own type, the other steps none of the three. */
  predicate Truthful(labels: seq<OperationType>)
    requires |labels| == STEPS
  {
    && labels[1] == GitCommit && labels[2] == GitPush && labels[3] == GithubPullRequest
    && !IsLookedUp(labels[0]) && !IsLookedUp(labels[4])
  }

  lemma LastOfTypeAppend(receipts: seq<Receipt>, r: Receipt, t: OperationType)
    ensures LastOfType(receipts + [r], t) == if r.operationType == t then Some(r) else LastOfType(receipts, t)
  {
    assert (receipts + [r])[..|receipts|] == receipts;
  }

  lemma LastOfReplies(script: Script, n: nat, t: OperationType)
    requires script.replies(n).Returned?
    ensures
      var r := script.replies(n).receipt;
      LastOfType(ReplyReceipts(script, n + 1), t) ==
          if r.operationType == t then Some(r) else LastOfType(ReplyReceipts(script, n), t)
  {
    LastOfTypeAppend(ReplyReceipts(script, n), script.replies(n).receipt, t);
  }

  /** The last receipt of a type that only step `k` carries is that step's reply, if it was called. */
  lemma {:induction false} FindStep(script: Script, n: nat, k: nat, t: OperationType)
    requires forall j :: 0 <= j < n ==> script.replies(j).Returned?
    requires forall j :: 0 <= j < n ==> (script.replies(j).receipt.operationType == t <==> j == k)
    ensures LastOfType(ReplyReceipts(script, n), t) == if k < n then Some(script.replies(k).receipt) else None
  {
    if n > 0 {
      FindStep(script, n - 1, k, t);
      LastOfReplies(script, n - 1, t);
    }
  }

  lemma AllReturned(plan: PublishPlan, script: Script, n: nat)
    requires Reaches(plan, script, n) && !Escapes(script, n)
    ensures forall j :: 0 <= j < n ==> script.replies(j).Returned?
  {
    forall j | 0 <= j < n ensures script.replies(j).Returned? { if j < n - 1 { assert Passed(script, j); } }
  }

  lemma TruthfulLabelsDiffer(labels: seq<OperationType>, j: nat, k: nat)
    requires |labels| == STEPS && Truthful(labels) && 1 <= k <= 3 && j < STEPS
    ensures labels[j] == labels[k] <==> j == k
  {
    assert j == 0 || j == 1 || j == 2 || j == 3 || j == 4;
  }

  /** The executor's own refusal receipt is not looked up. */
  lemma RefusalIsNotFound(plan: PublishPlan, script: Script, n: nat, base: seq<Receipt>, t: OperationType)
    requires IsLookedUp(t)
    ensures LastOfType(base + RefusalReceipt(plan, script, n), t) == LastOfType(base, t)
  {
    var refusal := RefusalReceipt(plan, script, n);
    if refusal == [] { assert base + refusal == base; } else { LastOfTypeAppend(base, refusal[0], t); }
  }

  /** What the translation finds for step `k` in a reported run. */
  lemma FindInReport(plan: PublishPlan, script: Script, n: nat, r: PublicationResult, labels: seq<OperationType>,
                     k: nat)
    requires Reaches(plan, script, n) && !Escapes(script, n) && Reports(plan, script, n, r)
    requires |labels| == STEPS && Labelled(script, labels) && Truthful(labels) && 1 <= k <= 3
    ensures k < n ==> script.replies(k).Returned?
    ensures LastOfType(r.receipts, labels[k]) == if k < n then Some(script.replies(k).receipt) else None
  {
    AllReturned(plan, script, n);
    ghost var t := labels[k];
    forall j | 0 <= j < n ensures script.replies(j).receipt.operationType == t <==> j == k {
      TruthfulLabelsDiffer(labels, j, k);
    }
    FindStep(script, n, k, t);
    RefusalIsNotFound(plan, script, n, ReplyReceipts(script, n), t);
  }

  // ---------- Consistency ----------

  /** The translated result tells the truth about a run that made `n` calls. */
  ghost predicate Consistent(plan: PublishPlan, script: Script, n: nat, r: PublicationResult) {
    var g := Build(plan, r);
    && (g.commit == NOT_STARTED <==> n < 2) && (g.commit == COMPLETED <==> n >= 2 && Succeeds(script.replies(1)))
    && (g.push == NOT_STARTED <==> n < 3) && (g.push == COMPLETED <==> n >= 3 && Succeeds(script.replies(2)))
    && (g.pullRequest == NOT_CREATED <==> n < 4)
    && (g.pullRequest == CREATED <==> n >= 4 && Succeeds(script.replies(3)))
    && (g.pullRequest == CREATED ==> g.push == COMPLETED) && (g.push == COMPLETED ==> g.commit == COMPLETED)
    && g.filesPublished == (if n >= 2 && Succeeds(script.replies(1)) then plan.files else [])
    && (g.filesPublished != [] <==> g.commit == COMPLETED)
    && g.commitHash == (if n >= 2 && Succeeds(script.replies(1)) then script.replies(1).receipt.externalId else None)
    && (g.status == PUBLISHED <==> n == STEPS && forall k :: 0 <= k < STEPS ==> Passed(script, k))
    && (g.status == PUBLISHED ==> g.pullRequest == CREATED)
    && (g.nextAction == RETRY_PUBLICATION <==> n >= 2 && g.status != PUBLISHED)
    && (g.nextAction == STOP <==> g.commit == NOT_STARTED)
  }

  lemma TruthfulIsConsistent(plan: PublishPlan, script: Script, n: nat, r: PublicationResult,
                             labels: seq<OperationType>)
    requires Reaches(plan, script, n) && !Escapes(script, n) && Reports(plan, script, n, r)
    requires |labels| == STEPS && Labelled(script, labels) && Truthful(labels)
    ensures Consistent(plan, script, n, r)
  {
    FindInReport(plan, script, n, r, labels, 1);
    FindInReport(plan, script, n, r, labels, 2);
    FindInReport(plan, script, n, r, labels, 3);
    StatusIsExact(plan, script, n, r);
    if n >= 3 { assert Passed(script, 1); }
    if n >= 4 { assert Passed(script, 2); }
    if n == STEPS { assert Passed(script, 3); }
  }

  /** With adapters that label so, the translation of every run is consistent. */
  ghost predicate AlwaysConsistent(labels: seq<OperationType>)
    requires |labels| == STEPS
  {
    forall plan: PublishPlan, script: Script, n: nat, r: PublicationResult ::
      Labelled(script, labels) && Reaches(plan, script, n) && !Escapes(script, n) && Reports(plan, script, n, r)
      ==> Consistent(plan, script, n, r)
  }

  /** A run whose step `k` is called and fails, every step before it having passed. */
  lemma FailingRun(labels: seq<OperationType>, k: nat) returns (plan: PublishPlan, script: Script, r: PublicationResult)
    requires |labels| == STEPS && k < STEPS
    ensures Labelled(script, labels) && Reaches(plan, script, k + 1) && !Escapes(script, k + 1)
      && Reports(plan, script, k + 1, r)
    ensures forall j :: 0 <= j <= k ==> script.replies(j).Returned?
    ensures forall j :: 0 <= j <= k ==> script.replies(j).receipt.operationType == labels[j]
    ensures forall j :: 0 <= j <= k ==> (Succeeds(script.replies(j)) <==> j < k)
    ensures r.receipts == ReplyReceipts(script, k + 1)
  {
    plan := PublishPlan(READY_TO_PUBLISH, true, true, ["f"], "m", "r", "b", "t", "", "main", "head");
    var reading := Reading("run", [Grant("run", PUBLISH, None, true)], 0);
    assert Covers(reading.grants[0], PUBLISH, reading);
    script := Script(_ => reading,
                     (j: nat) => Returned(Receipt(if j < STEPS then labels[j] else GitPreflight,
                                                  if j < k then SUCCEEDED else FAILED, Some("1"), None, "e")),
                     _ => None);
    assert Underway(plan, script, k);
    StepFailed(plan, script, k, "");
    r := Report(script, k + 1, ReplyReceipts(script, k + 1), "e");
    assert RefusalReceipt(plan, script, k + 1) == [];
  }

  /** If no step up to `k` carries the type, the translation of its failing run finds nothing. */
  lemma UnlabelledIsInconsistent(labels: seq<OperationType>, k: nat)
    requires |labels| == STEPS && 1 <= k <= 3
    requires
      var t := if k == 1 then GitCommit else if k == 2 then GitPush else GithubPullRequest;
      forall j :: 0 <= j <= k ==> labels[j] != t
    ensures !AlwaysConsistent(labels)
  {
    var plan, script, r := FailingRun(labels, k);
    FindStep(script, k + 1, k + 1, if k == 1 then GitCommit else if k == 2 then GitPush else GithubPullRequest);
    assert !Consistent(plan, script, k + 1, r);
  }

  /** If the last step called carries a type that is not its own, its failure is taken for another's. */
  lemma BorrowedLabelIsInconsistent(labels: seq<OperationType>, k: nat)
    requires |labels| == STEPS && (k == 0 || k == 4) && IsLookedUp(labels[k])
    ensures !AlwaysConsistent(labels)
  {
    var plan, script, r := FailingRun(labels, k);
    LastOfReplies(script, k, labels[k]);
    assert !Consistent(plan, script, k + 1, r);
  }

  /** The translation is always consistent exactly when the adapters label truthfully. */
  lemma ConsistentIffTruthful(labels: seq<OperationType>)
    requires |labels| == STEPS
    ensures AlwaysConsistent(labels) <==> Truthful(labels)
  {
    if Truthful(labels) {
      forall plan: PublishPlan, script: Script, n: nat, r: PublicationResult
        | Labelled(script, labels) && Reaches(plan, script, n) && !Escapes(script, n) && Reports(plan, script, n, r)
        ensures Consistent(plan, script, n, r)
      {
        TruthfulIsConsistent(plan, script, n, r, labels);
      }
    } else if IsLookedUp(labels[0]) {
      BorrowedLabelIsInconsistent(labels, 0);
    } else if labels[1] != GitCommit {
      UnlabelledIsInconsistent(labels, 1);
    } else if labels[2] != GitPush {
      UnlabelledIsInconsistent(labels, 2);
    } else if labels[3] != GithubPullRequest {
      UnlabelledIsInconsistent(labels, 3);
    } else {
      BorrowedLabelIsInconsistent(labels, 4);
    }
  }

  /** Without the adapters' labels it need not: a preflight receipt that calls itself a push, and
      a commit that fails, are reported as a completed push of a failed commit. */
  lemma MislabelledReceiptMisreports() returns (plan: PublishPlan, script: Script, r: PublicationResult)
    ensures Reaches(plan, script, 2) && !Escapes(script, 2) && Reports(plan, script, 2, r)
    ensures Build(plan, r).push == COMPLETED && Build(plan, r).commit == GIT_FAILED
  {
    plan := PublishPlan(READY_TO_PUBLISH, true, true, ["f"], "m", "r", "b", "t", "", "main", "head");
    var reading := Reading("run", [Grant("run", PUBLISH, None, true)], 0);
    var odd, bad := Receipt(GitPush, SUCCEEDED, None, None, ""), Receipt(GitCommit, FAILED, None, None, "e");
    script := Script(_ => reading, k => if k == 0 then Returned(odd) else Returned(bad), _ => None);
    r := PublicationResult(PUBLICATION_FAILED, [odd, bad], ["e"], None, None, None);
    assert Covers(reading.grants[0], PUBLISH, reading);
    assert ReplyReceipts(script, 1) == [odd] && ReplyReceipts(script, 2) == [odd, bad];
    assert r.receipts[..1] == [odd];
    assert LastOfType([odd], GitPush) == Some(odd);
    assert LastOfType(r.receipts, GitPush) == Some(odd) && LastOfType(r.receipts, GitCommit) == Some(bad);
  }
}
