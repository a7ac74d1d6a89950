/** `PublicationExecutor`: commit, push and pull request under a grant that is checked again before
    every step. Adapters, clock and grant list are arbitrary. */
module Publication {
  import opened Wrappers
  import opened Control

  datatype PlanStatus = READY_TO_PUBLISH | PLAN_BLOCKED | NEEDS_REVIEW | NOT_READY

  datatype PublishPlan = PublishPlan(
    status: PlanStatus, publicationAllowed: bool, scopeVerified: bool, files: seq<string>, message: string,
    repository: string, branch: string, title: string, body: string, baseBranch: string, headBranch: string)

  datatype Call =
    | Preflight(paths: seq<string>)
    | Commit(message: string, paths: seq<string>)
    | Push(branch: string)
    | CreatePullRequest(repository: string, title: string, body: string, baseBranch: string, headBranch: string)
    | VerifyPullRequest(repository: string, id: string, headBranch: string, baseBranch: string)

  /** One adapter call, and how many grant checks had been made when it was made. */
  datatype Entry = Entry(call: Call, checks: nat)

  /** Everything outside the executor: the k-th grant check sees `readings(k)`, the k-th adapter
      call is answered `replies(k)`, and `parse` is Python's `int` on a string. */
  datatype Script = Script(readings: nat -> Reading, replies: nat -> Reply, parse: string -> Option<int>)

  datatype PublicationStatus = PUBLISHED | PARTIALLY_PUBLISHED | PUBLICATION_BLOCKED | PUBLICATION_FAILED

  datatype PublicationResult = PublicationResult(
    status: PublicationStatus, receipts: seq<Receipt>, errors: seq<string>,
    commitSha: Option<string>, pullRequestUrl: Option<string>, pullRequestNumber: Option<int>)

  datatype Outcome = Finished(result: PublicationResult) | Escaped

  // ---------- The protocol, as a specification ----------

  const STEPS := 5

  predicate PlanReady(plan: PublishPlan) {
    plan.status == READY_TO_PUBLISH && plan.publicationAllowed && plan.files != [] && plan.scopeVerified
  }

  /** Step `k` was answered well enough to go on. */
  predicate Passed(script: Script, k: nat) {
    && Succeeds(script.replies(k))
    && (k == 3 ==> script.replies(k).receipt.externalId.Some? && script.replies(k).receipt.externalId.value != "")
  }

  /** The k-th adapter call, with its arguments; verification names the pull request just created. */
  function CallAt(plan: PublishPlan, script: Script, k: nat): Call
    requires k < STEPS && (k == 4 ==> Passed(script, 3))
  {
    match k
    case 0 => Preflight(plan.files)
    case 1 => Commit(plan.message, plan.files)
    case 2 => Push(plan.headBranch)
    case 3 => CreatePullRequest(plan.repository, plan.title, plan.body, plan.baseBranch, plan.headBranch)
    case _ => VerifyPullRequest(plan.repository, script.replies(3).receipt.externalId.value, plan.headBranch,
                                plan.baseBranch)
  }

  /** `n` adapter calls are made: the grant held before each, all but the last passed, and what
      would have come next was refused. */
  ghost predicate Reaches(plan: PublishPlan, script: Script, n: nat) {
    && n <= STEPS
    && (n > 0 ==> PlanReady(plan))
    && (forall k :: 0 <= k < n ==> Granted(PUBLISH, script.readings(k)))
    && (forall k :: 0 <= k < n - 1 ==> Passed(script, k))
    && (n < STEPS ==> || !Granted(PUBLISH, script.readings(n))
                      || (n == 0 && !PlanReady(plan))
                      || (n > 0 && !Passed(script, n - 1)))
  }

  lemma ReachesIsUnique(plan: PublishPlan, script: Script, n: nat, m: nat)
    requires Reaches(plan, script, n) && Reaches(plan, script, m)
    ensures n == m
  {
  }

  /** The run stopped because the grant was gone, not because a step failed. */
  ghost predicate StoppedByGrant(script: Script, n: nat) {
    n < STEPS && (n > 0 ==> Passed(script, n - 1)) && !Granted(PUBLISH, script.readings(n))
  }

  /** The log of a run that makes `n` calls: the k-th comes right after the k-th successful check. */
  ghost predicate IsProtocolLog(plan: PublishPlan, script: Script, n: nat, log: seq<Entry>)
    requires n <= STEPS && (n == STEPS ==> Passed(script, 3))
  {
    |log| == n && forall k :: 0 <= k < n ==> log[k] == Entry(CallAt(plan, script, k), k + 1)
  }

  // ---------- What a log must look like, call by call ----------

  /** Before entry `i` this call was made and answered with success. */
  ghost predicate SucceededBefore(script: Script, log: seq<Entry>, i: nat, call: Call)
    requires i <= |log|
  {
    exists j :: 0 <= j < i && log[j].call == call && Succeeds(script.replies(j))
  }

  /** Before entry `i` a pull request was opened for these branches, and this is its id. */
  ghost predicate OpenedBefore(plan: PublishPlan, script: Script, log: seq<Entry>, i: nat, id: string, head: string,
                               base: string)
    requires i <= |log|
  {
    exists j :: 0 <= j < i && Succeeds(script.replies(j)) && script.replies(j).receipt.externalId == Some(id)
      && log[j].call == CreatePullRequest(plan.repository, plan.title, plan.body, base, head)
  }

  /** The call of entry `i` is one the plan asks for, and what it builds on has been done: only checked
      paths are committed, only a commit is pushed, a pull request is opened for the branch that was
      pushed, and the one that was opened is verified. */
  ghost predicate Backed(plan: PublishPlan, script: Script, log: seq<Entry>, i: nat)
    requires i < |log|
  {
    match log[i].call
    case Preflight(paths) => paths == plan.files
    case Commit(message, paths) =>
      message == plan.message && paths == plan.files && SucceededBefore(script, log, i, Preflight(paths))
    case Push(branch) =>
      branch == plan.headBranch && SucceededBefore(script, log, i, Commit(plan.message, plan.files))
    case CreatePullRequest(repository, title, body, base, head) =>
      && repository == plan.repository && title == plan.title && body == plan.body && base == plan.baseBranch
      && SucceededBefore(script, log, i, Push(head))
    case VerifyPullRequest(repository, id, head, base) =>
      repository == plan.repository && id != "" && OpenedBefore(plan, script, log, i, id, head, base)
  }

  /** The plan is authorized and names the files it publishes. */
  predicate MayPublish(plan: PublishPlan) {
    plan.status == READY_TO_PUBLISH && plan.publicationAllowed && plan.files != [] && plan.scopeVerified
  }

  /** The run is over: the pull request was to be verified, or the grant was gone at the next check, or the plan
      was never to be published, or the last call was not answered as it must be. */
  ghost predicate IsOver(plan: PublishPlan, script: Script, log: seq<Entry>) {
    var n := |log|;
    || !Granted(PUBLISH, script.readings(n)) || (n == 0 && !MayPublish(plan))
    || (n > 0 && log[n - 1].call.VerifyPullRequest?)
    || (n > 0 && !Succeeds(script.replies(n - 1)))
    || (n > 0 && log[n - 1].call.CreatePullRequest? && script.replies(n - 1).receipt.externalId in {None, Some("")})
  }

  /** Nothing is called for a plan that may not be published; every call is backed, none is made twice, each comes
      right after a check of its own that found the grant; and there is a reason for the run to be over. */
  ghost predicate Orderly(plan: PublishPlan, script: Script, log: seq<Entry>) {
    && (log != [] ==> MayPublish(plan))
    && (forall i :: 0 <= i < |log| ==> Backed(plan, script, log, i))
    && (forall i, j :: 0 <= i < j < |log| ==> log[i].call != log[j].call)
    && (forall i :: 0 <= i < |log| ==> log[i].checks == i + 1 && Granted(PUBLISH, script.readings(i)))
    && IsOver(plan, script, log)
  }

  lemma ProtocolIsOrderly(plan: PublishPlan, script: Script, n: nat, log: seq<Entry>)
    requires Reaches(plan, script, n) && IsProtocolLog(plan, script, n, log)
    ensures Orderly(plan, script, log)
  {
    forall i | 0 <= i < n ensures Backed(plan, script, log, i) {
      if i > 0 { assert Passed(script, i - 1) && log[i - 1] == Entry(CallAt(plan, script, i - 1), i); }
    }
    if n > 0 { assert log[n - 1] == Entry(CallAt(plan, script, n - 1), n); }
  }

  /** The commit that a result names was made, and the pull request was opened, by the calls whose
      replies say so; PUBLISHED means that the pull request was verified at the end. */
  ghost predicate Truthful(script: Script, log: seq<Entry>, r: PublicationResult) {
    && (r.status == PUBLICATION_BLOCKED <==> forall e <- log :: !e.call.Commit?)
    && (r.commitSha.Some? ==> exists j :: 0 <= j < |log| && CommitsAs(script, log, j, r.commitSha.value))
    && (forall j :: 0 <= j < |log| && log[j].call.Commit? && Succeeds(script.replies(j)) ==>
        r.commitSha == script.replies(j).receipt.externalId)
    && Answered(script, log, r.receipts)
    && (r.pullRequestNumber.Some? ==> exists j :: 0 <= j < |log| && OpensAs(script, log, j, r))
    && (r.status == PUBLISHED <==>
        log != [] && log[|log| - 1].call.VerifyPullRequest? && Succeeds(script.replies(|log| - 1)))
    && (r.status == PUBLICATION_FAILED <==>
        log != [] && log[|log| - 1].call.Commit? && !Succeeds(script.replies(|log| - 1)))
  }

  /** The receipts are the answers to the calls, in order, and after them at most a refusal. */
  ghost predicate Answered(script: Script, log: seq<Entry>, receipts: seq<Receipt>) {
    && |log| <= |receipts| <= |log| + 1
    && (forall j :: 0 <= j < |log| ==> script.replies(j) == Returned(receipts[j]))
    && (|receipts| > |log| ==> receipts[|log|].status == BLOCKED)
    && (|receipts| > |log| && !Granted(PUBLISH, script.readings(|log|)) ==>
        receipts[|log|].operationType == PublicationAuthorization)
  }

  ghost predicate CommitsAs(script: Script, log: seq<Entry>, j: nat, sha: string)
    requires j < |log|
  {
    log[j].call.Commit? && Succeeds(script.replies(j)) && script.replies(j).receipt.externalId == Some(sha)
  }

  ghost predicate OpensAs(script: Script, log: seq<Entry>, j: nat, r: PublicationResult)
    requires j < |log|
  {
    && log[j].call.CreatePullRequest? && Succeeds(script.replies(j)) && script.replies(j).receipt.externalId.Some?
    && r.pullRequestUrl == script.replies(j).receipt.url
    && r.pullRequestNumber == script.parse(script.replies(j).receipt.externalId.value)
  }

  lemma ReportIsTruthful(plan: PublishPlan, script: Script, n: nat, log: seq<Entry>, r: PublicationResult)
    requires Reaches(plan, script, n) && IsProtocolLog(plan, script, n, log)
    requires !Escapes(script, n) && Reports(plan, script, n, r)
    ensures Truthful(script, log, r)
  {
    CallsInOrder(plan, script, n, log);
    ReportNamesCommit(plan, script, n, log, r);
    ReportNamesPullRequest(plan, script, n, log, r);
    ReceiptsAnswer(plan, script, n, log, r);
    if n > 0 { assert n == 1 || n == 2 || n == 3 || n == 4 || n == 5; }
  }

  /** Which call is which. */
  lemma CallsInOrder(plan: PublishPlan, script: Script, n: nat, log: seq<Entry>)
    requires n <= STEPS && (n == STEPS ==> Passed(script, 3)) && IsProtocolLog(plan, script, n, log)
    ensures forall k :: 0 <= k < n ==> (log[k].call.Commit? <==> k == 1)
    ensures forall k :: 0 <= k < n ==> (log[k].call.CreatePullRequest? <==> k == 3)
    ensures forall k :: 0 <= k < n ==> (log[k].call.VerifyPullRequest? <==> k == 4)
  {
    forall k | 0 <= k < n ensures log[k].call == CallAt(plan, script, k) { assert k <= 4; }
  }

  lemma ReportNamesCommit(plan: PublishPlan, script: Script, n: nat, log: seq<Entry>, r: PublicationResult)
    requires Reaches(plan, script, n) && IsProtocolLog(plan, script, n, log)
    requires !Escapes(script, n) && Reports(plan, script, n, r)
    ensures r.status == PUBLICATION_BLOCKED <==> forall e <- log :: !e.call.Commit?
    ensures r.commitSha.Some? ==> exists j :: 0 <= j < |log| && CommitsAs(script, log, j, r.commitSha.value)
    ensures forall j :: 0 <= j < |log| && log[j].call.Commit? && Succeeds(script.replies(j)) ==>
      r.commitSha == script.replies(j).receipt.externalId
  {
    CallsInOrder(plan, script, n, log);
    if n >= 2 { assert log[1] in log; }
    forall e | e in log && e.call.Commit? ensures n >= 2 {
      var k :| 0 <= k < n && log[k] == e;
    }
    if r.commitSha.Some? { assert CommitsAs(script, log, 1, r.commitSha.value); }
  }

  lemma ReportNamesPullRequest(plan: PublishPlan, script: Script, n: nat, log: seq<Entry>, r: PublicationResult)
    requires Reaches(plan, script, n) && IsProtocolLog(plan, script, n, log)
    requires !Escapes(script, n) && Reports(plan, script, n, r)
    ensures r.pullRequestNumber.Some? ==> exists j :: 0 <= j < |log| && OpensAs(script, log, j, r)
  {
    CallsInOrder(plan, script, n, log);
    if r.pullRequestNumber.Some? {
      assert Passed(script, 3);
      assert OpensAs(script, log, 3, r);
    }
  }

  lemma ReceiptsAnswer(plan: PublishPlan, script: Script, n: nat, log: seq<Entry>, r: PublicationResult)
    requires Reaches(plan, script, n) && IsProtocolLog(plan, script, n, log)
    requires !Escapes(script, n) && Reports(plan, script, n, r)
    ensures Answered(script, log, r.receipts)
  {
    forall j | 0 <= j < n ensures script.replies(j).Returned? { if j < n - 1 { assert Passed(script, j); } }
    RepliesInOrder(script, n);
  }

  /** The last call raised; or the pull request was verified, and its id is no integer. */
  ghost predicate IsRaised(script: Script, log: seq<Entry>) {
    log != [] && var last := |log| - 1;
      || script.replies(last).Raised?
      || (log[last].call.VerifyPullRequest? && Succeeds(script.replies(last)) && script.parse(log[last].call.id).None?)
  }

  lemma EscapesIffRaised(plan: PublishPlan, script: Script, n: nat, log: seq<Entry>)
    requires Reaches(plan, script, n) && IsProtocolLog(plan, script, n, log)
    ensures Escapes(script, n) <==> IsRaised(script, log)
  {
    CallsInOrder(plan, script, n, log);
    if n == STEPS { assert Passed(script, 3) && log[4] == Entry(CallAt(plan, script, 4), 5); }
  }

  lemma {:induction false} RepliesInOrder(script: Script, n: nat)
    requires forall k :: 0 <= k < n ==> script.replies(k).Returned?
    ensures |ReplyReceipts(script, n)| == n
    ensures forall k :: 0 <= k < n ==> script.replies(k) == Returned(ReplyReceipts(script, n)[k])
  {
    if n > 0 { RepliesInOrder(script, n - 1); }
  }

  /** One check per call, one more when the last one refused, and always at least one. */
  ghost function ChecksMade(script: Script, n: nat): nat {
    if n == 0 || StoppedByGrant(script, n) then n + 1 else n
  }

  predicate CommitDone(script: Script, n: nat) {
    n >= 2 && Passed(script, 1)
  }

  /** How far the run got decides its status. */
  function StatusOf(script: Script, n: nat): PublicationStatus {
    if n == STEPS && Passed(script, 4) then PUBLISHED
    else if CommitDone(script, n) then PARTIALLY_PUBLISHED
    else if n == 2 then PUBLICATION_FAILED
    else PUBLICATION_BLOCKED
  }

  const NO_GRANT := Refusal(PublicationAuthorization, "No active PUBLISH authorization grant exists for this run.")
  const BAD_PLAN := Refusal(PublicationPlan, "Publish plan is not explicitly authorized.")
  const BAD_SCOPE := Refusal(PublicationScope, "Publication requires a verified non-empty file scope.")

  /** The refusal receipt that closes the list, if the run was refused rather than failed. */
  ghost function RefusalReceipt(plan: PublishPlan, script: Script, n: nat): seq<Receipt> {
    if StoppedByGrant(script, n) then [NO_GRANT]
    else if n > 0 then []
    else if plan.status != READY_TO_PUBLISH || !plan.publicationAllowed then [BAD_PLAN]
    else [BAD_SCOPE]
  }

  function ReplyReceipts(script: Script, n: nat): (r: seq<Receipt>)
    ensures (forall k :: 0 <= k < n ==> script.replies(k).Returned?) ==> |r| == n
  {
    if n == 0 then [] else
    ReplyReceipts(script, n - 1) + (match script.replies(n - 1) case Returned(r) => [r] case Raised => [])
  }

  /** An exception leaves the executor when an adapter raises, or when every step succeeded but the
      pull request id is not an integer. */
  ghost predicate Escapes(script: Script, n: nat) {
    || (n > 0 && script.replies(n - 1).Raised?)
    || (n == STEPS && Passed(script, 3) && Passed(script, 4)
        && script.parse(script.replies(3).receipt.externalId.value).None?)
  }

  /** The last receipt's error, when it has one, is the error reported. */
  ghost predicate ExplainedBy(errors: seq<string>, last: Receipt) {
    last.error != "" ==> errors == [last.error]
  }

  /** What a finished run that made `n` calls reports. */
  ghost predicate Reports(plan: PublishPlan, script: Script, n: nat, r: PublicationResult)
    requires Reaches(plan, script, n) && !Escapes(script, n)
  {
    && r.status == StatusOf(script, n)
    && r.receipts == ReplyReceipts(script, n) + RefusalReceipt(plan, script, n)
    && r.commitSha == (if CommitDone(script, n) then script.replies(1).receipt.externalId else None)
    && (r.status == PUBLISHED ==>
          && r.pullRequestUrl == script.replies(3).receipt.url
          && r.pullRequestNumber == script.parse(script.replies(3).receipt.externalId.value)
          && r.errors == [])
    && (r.status != PUBLISHED ==> r.pullRequestUrl == None && r.pullRequestNumber == None && |r.errors| == 1)
    && (r.status != PUBLISHED ==> r.receipts != [] && ExplainedBy(r.errors, r.receipts[|r.receipts| - 1]))
  }

  /** `n` steps have passed, each under a grant. */
  ghost predicate Underway(plan: PublishPlan, script: Script, n: nat) {
    && n <= STEPS && PlanReady(plan)
    && forall k :: 0 <= k < n ==> Granted(PUBLISH, script.readings(k)) && Passed(script, k)
  }

  ghost function Report(script: Script, n: nat, receipts: seq<Receipt>, error: string): PublicationResult {
    PublicationResult(StatusOf(script, n), receipts, [error],
                      if CommitDone(script, n) then script.replies(1).receipt.externalId else None, None, None)
  }

  lemma UnderwayReceipts(plan: PublishPlan, script: Script, n: nat)
    requires Underway(plan, script, n)
    ensures |ReplyReceipts(script, n)| == n
  {
    forall k | 0 <= k < n ensures script.replies(k).Returned? { assert Passed(script, k); }
  }

  lemma NeverStarted(plan: PublishPlan, script: Script)
    requires !Granted(PUBLISH, script.readings(0)) || !PlanReady(plan)
    ensures Reaches(plan, script, 0) && !Escapes(script, 0) && ChecksMade(script, 0) == 1
    ensures var refusal := RefusalReceipt(plan, script, 0);
      Reports(plan, script, 0, Report(script, 0, refusal, refusal[0].error))
  {
  }

  lemma RefusedMidway(plan: PublishPlan, script: Script, n: nat)
    requires Underway(plan, script, n) && n < STEPS && !Granted(PUBLISH, script.readings(n))
    ensures Reaches(plan, script, n) && !Escapes(script, n) && ChecksMade(script, n) == n + 1
    ensures Reports(plan, script, n, Report(script, n, ReplyReceipts(script, n) + [NO_GRANT], NO_GRANT.error))
  {
    if n > 0 { assert Passed(script, n - 1); }
  }

  lemma StepFailed(plan: PublishPlan, script: Script, n: nat, default: string)
    requires Underway(plan, script, n) && n < STEPS && Granted(PUBLISH, script.readings(n)) && !Passed(script, n)
    ensures Reaches(plan, script, n + 1) && ChecksMade(script, n + 1) == n + 1
    ensures Escapes(script, n + 1) <==> script.replies(n).Raised?
    ensures !Escapes(script, n + 1) ==> Reports(plan, script, n + 1,
      Report(script, n + 1, ReplyReceipts(script, n + 1), ErrorOr(script.replies(n).receipt, default)))
  {
    forall k | 0 <= k < n ensures Passed(script, k) && Granted(PUBLISH, script.readings(k)) {}
    UnderwayReceipts(plan, script, n);
  }

  lemma StepPassed(plan: PublishPlan, script: Script, n: nat)
    requires Underway(plan, script, n) && n < STEPS && Granted(PUBLISH, script.readings(n)) && Passed(script, n)
    ensures Underway(plan, script, n + 1)
    ensures ReplyReceipts(script, n + 1) == ReplyReceipts(script, n) + [script.replies(n).receipt]
  {
  }

  lemma LogExtends(plan: PublishPlan, script: Script, n: nat, log: seq<Entry>)
    requires n < STEPS && (n == STEPS - 1 ==> Passed(script, 3)) && IsProtocolLog(plan, script, n, log)
    ensures IsProtocolLog(plan, script, n + 1, log + [Entry(CallAt(plan, script, n), n + 1)])
  {
  }

  lemma AllPassed(plan: PublishPlan, script: Script)
    requires Underway(plan, script, STEPS)
    ensures Reaches(plan, script, STEPS) && ChecksMade(script, STEPS) == STEPS && Passed(script, 1) && Passed(script, 3)
    ensures var id := script.replies(3).receipt.externalId.value;
      && (Escapes(script, STEPS) <==> script.parse(id).None?)
      && (!Escapes(script, STEPS) ==>
          Reports(plan, script, STEPS, PublicationResult(PUBLISHED, ReplyReceipts(script, STEPS), [],
            script.replies(1).receipt.externalId, script.replies(3).receipt.url, script.parse(id))))
  {
    assert Passed(script, 0) && Passed(script, 1) && Passed(script, 2) && Passed(script, 3) && Passed(script, 4);
  }

  // ---------- The executor ----------

  class World {
    const script: Script
    var checks: nat
    var calls: nat
    var log: seq<Entry>

    constructor (script: Script)
      ensures this.script == script && checks == 0 && calls == 0 && log == []
    {
      this.script := script;
      checks, calls, log := 0, 0, [];
    }

    /** Read the clock and the state: is a PUBLISH grant there? */
    method RequireGrant() returns (blocked: Option<Receipt>)
      modifies this
      ensures checks == old(checks) + 1 && calls == old(calls) && log == old(log)
      ensures blocked == if Granted(PUBLISH, script.readings(old(checks))) then None else Some(NO_GRANT)
    {
      var reading := script.readings(checks);
      checks := checks + 1;
      var grant := FindGrant(PUBLISH, reading);
      blocked := if grant.Some? then None else Some(NO_GRANT);
    }

    method Invoke(call: Call) returns (reply: Reply)
      modifies this
      ensures calls == old(calls) + 1 && checks == old(checks)
      ensures reply == script.replies(old(calls))
      ensures log == old(log) + [Entry(call, checks)]
    {
      reply := script.replies(calls);
      calls := calls + 1;
      log := log + [Entry(call, checks)];
    }
  }

  function Stopped(status: PublicationStatus, receipts: seq<Receipt>, sha: Option<string>, error: string): Outcome {
    Finished(PublicationResult(status, receipts, [error], sha, None, None))
  }

  /** The last step of `execute`, once the pull request is open. */
  method ConfirmPullRequest(world: World, plan: PublishPlan, done: seq<Receipt>, sha: Option<string>, id: string,
                            url: Option<string>)
    returns (outcome: Outcome, ghost n: nat)
    requires Underway(plan, world.script, 4) && world.checks == 4 && world.calls == 4
    requires IsProtocolLog(plan, world.script, 4, world.log)
    requires done == ReplyReceipts(world.script, 4) && Passed(world.script, 1) && Passed(world.script, 3)
    requires sha == world.script.replies(1).receipt.externalId
    requires Some(id) == world.script.replies(3).receipt.externalId && url == world.script.replies(3).receipt.url
    modifies world
    ensures Reaches(plan, world.script, n) && IsProtocolLog(plan, world.script, n, world.log)
    ensures world.checks == ChecksMade(world.script, n)
    ensures outcome.Escaped? <==> Escapes(world.script, n)
    ensures outcome.Finished? ==> Reports(plan, world.script, n, outcome.result)
  {
    ghost var script := world.script;
    var receipts := done;
    var blocked := world.RequireGrant();
    if blocked.Some? {
      RefusedMidway(plan, script, 4);
      receipts := receipts + [blocked.value];
      return Stopped(PARTIALLY_PUBLISHED, receipts, sha,
        ErrorOr(blocked.value, "Authorization expired before PR verification.")), 4;
    }
    LogExtends(plan, script, 4, world.log);
    var verification := world.Invoke(VerifyPullRequest(plan.repository, id, plan.headBranch, plan.baseBranch));
    n := 5;
    if !Passed(world.script, 4) { StepFailed(plan, script, 4, "Pull request verification failed."); }
    if verification.Raised? { return Escaped, 5; }
    receipts := receipts + [verification.receipt];
    if verification.receipt.status != SUCCEEDED {
      return Stopped(PARTIALLY_PUBLISHED, receipts, sha,
        ErrorOr(verification.receipt, "Pull request verification failed.")), 5;
    }
    StepPassed(plan, script, 4);
    AllPassed(plan, script);

    var number := world.script.parse(id);
    if number.None? { return Escaped, 5; }
    return Finished(PublicationResult(PUBLISHED, receipts, [], sha, url, number)), 5;
  }

  /** The last two steps of `execute`, once the branch is pushed. */
  method OpenPullRequest(world: World, plan: PublishPlan, done: seq<Receipt>, sha: Option<string>)
    returns (outcome: Outcome, ghost n: nat)
    requires Underway(plan, world.script, 3) && world.checks == 3 && world.calls == 3
    requires IsProtocolLog(plan, world.script, 3, world.log)
    requires done == ReplyReceipts(world.script, 3) && Passed(world.script, 1)
    requires sha == world.script.replies(1).receipt.externalId
    modifies world
    ensures Reaches(plan, world.script, n) && IsProtocolLog(plan, world.script, n, world.log)
    ensures world.checks == ChecksMade(world.script, n)
    ensures outcome.Escaped? <==> Escapes(world.script, n)
    ensures outcome.Finished? ==> Reports(plan, world.script, n, outcome.result)
  {
    ghost var script := world.script;
    var receipts := done;
    var blocked := world.RequireGrant();
    if blocked.Some? {
      RefusedMidway(plan, script, 3);
      receipts := receipts + [blocked.value];
      return Stopped(PARTIALLY_PUBLISHED, receipts, sha,
        ErrorOr(blocked.value, "Authorization expired before PR creation.")), 3;
    }
    LogExtends(plan, script, 3, world.log);
    var pr := world.Invoke(CreatePullRequest(plan.repository, plan.title, plan.body, plan.baseBranch, plan.headBranch));
    n := 4;
    if !Passed(world.script, 3) { StepFailed(plan, script, 3, "Pull request creation failed."); }
    if pr.Raised? { return Escaped, 4; }
    receipts := receipts + [pr.receipt];
    if pr.receipt.status != SUCCEEDED || pr.receipt.externalId.None? || pr.receipt.externalId.value == "" {
      return Stopped(PARTIALLY_PUBLISHED, receipts, sha, ErrorOr(pr.receipt, "Pull request creation failed.")), 4;
    }
    StepPassed(plan, script, 3);
    outcome, n := ConfirmPullRequest(world, plan, receipts, sha, pr.receipt.externalId.value, pr.receipt.url);
  }

  /** The rest of `execute`, once the commit is made. */
  method PushCommit(world: World, plan: PublishPlan, done: seq<Receipt>, sha: Option<string>)
    returns (outcome: Outcome, ghost n: nat)
    requires Underway(plan, world.script, 2) && world.checks == 2 && world.calls == 2
    requires IsProtocolLog(plan, world.script, 2, world.log)
    requires done == ReplyReceipts(world.script, 2) && Passed(world.script, 1)
    requires sha == world.script.replies(1).receipt.externalId
    modifies world
    ensures Reaches(plan, world.script, n) && IsProtocolLog(plan, world.script, n, world.log)
    ensures world.checks == ChecksMade(world.script, n)
    ensures outcome.Escaped? <==> Escapes(world.script, n)
    ensures outcome.Finished? ==> Reports(plan, world.script, n, outcome.result)
  {
    ghost var script := world.script;
    var receipts := done;

    var blocked := world.RequireGrant();
    if blocked.Some? {
      RefusedMidway(plan, script, 2);
      receipts := receipts + [blocked.value];
      return Stopped(PARTIALLY_PUBLISHED, receipts, sha,
        ErrorOr(blocked.value, "Authorization expired before push.")), 2;
    }
    LogExtends(plan, script, 2, world.log);
    var push := world.Invoke(Push(plan.headBranch));
    n := 3;
    if !Passed(world.script, 2) { StepFailed(plan, script, 2, "Git push failed."); }
    if push.Raised? { return Escaped, 3; }
    receipts := receipts + [push.receipt];
    if push.receipt.status != SUCCEEDED {
      return Stopped(PARTIALLY_PUBLISHED, receipts, sha, ErrorOr(push.receipt, "Git push failed.")), 3;
    }
    StepPassed(plan, script, 2);

    outcome, n := OpenPullRequest(world, plan, receipts, sha);
  }

  /** The first two steps of `execute`, and the checks before them. */
  method CheckAndCommit(world: World, plan: PublishPlan) returns (outcome: Outcome, ghost n: nat)
    requires world.checks == 0 && world.calls == 0 && world.log == []
    modifies world
    ensures Reaches(plan, world.script, n) && IsProtocolLog(plan, world.script, n, world.log)
    ensures world.checks == ChecksMade(world.script, n)
    ensures outcome.Escaped? <==> Escapes(world.script, n)
    ensures outcome.Finished? ==> Reports(plan, world.script, n, outcome.result)
  {
    ghost var script := world.script;
    var receipts: seq<Receipt> := [];
    n := 0;
    if !Granted(PUBLISH, script.readings(0)) || !PlanReady(plan) { NeverStarted(plan, script); }
    var blocked := world.RequireGrant();
    if blocked.Some? {
      return Stopped(PUBLICATION_BLOCKED, [blocked.value], None, ErrorOr(blocked.value, "Authorization blocked.")), 0;
    }
    if plan.status != READY_TO_PUBLISH || !plan.publicationAllowed {
      return Stopped(PUBLICATION_BLOCKED, [BAD_PLAN], None, ErrorOr(BAD_PLAN, "Publish plan blocked.")), 0;
    }
    if plan.files == [] || !plan.scopeVerified {
      return Stopped(PUBLICATION_BLOCKED, [BAD_SCOPE], None, ErrorOr(BAD_SCOPE, "Publication scope blocked.")), 0;
    }
    assert Underway(plan, script, 0);

    LogExtends(plan, script, 0, world.log);
    var preflight := world.Invoke(Preflight(plan.files));
    n := 1;
    if !Passed(world.script, 0) { StepFailed(plan, script, 0, "Git preflight failed."); }
    if preflight.Raised? { return Escaped, 1; }
    receipts := receipts + [preflight.receipt];
    if preflight.receipt.status != SUCCEEDED {
      return Stopped(PUBLICATION_BLOCKED, receipts, None, ErrorOr(preflight.receipt, "Git preflight failed.")), 1;
    }
    StepPassed(plan, script, 0);

    blocked := world.RequireGrant();
    if blocked.Some? {
      RefusedMidway(plan, script, 1);
      receipts := receipts + [blocked.value];
      return Stopped(PUBLICATION_BLOCKED, receipts, None, ErrorOr(blocked.value, "Authorization expired.")), 1;
    }
    LogExtends(plan, script, 1, world.log);
    var commit := world.Invoke(Commit(plan.message, plan.files));
    n := 2;
    if !Passed(world.script, 1) { StepFailed(plan, script, 1, "Git commit failed."); }
    if commit.Raised? { return Escaped, 2; }
    receipts := receipts + [commit.receipt];
    if commit.receipt.status != SUCCEEDED {
      return Stopped(PUBLICATION_FAILED, receipts, None, ErrorOr(commit.receipt, "Git commit failed.")), 2;
    }
    StepPassed(plan, script, 1);
    outcome, n := PushCommit(world, plan, receipts, commit.receipt.externalId);
  }

  /** For every plan and every behaviour of the surroundings, the run makes exactly the calls the
      protocol allows, in order, each right after a successful grant check and with what it builds on
      done, and reports how far it got. */
  method Execute(world: World, plan: PublishPlan) returns (outcome: Outcome, ghost n: nat)
    requires world.checks == 0 && world.calls == 0 && world.log == []
    modifies world
    ensures Reaches(plan, world.script, n) && IsProtocolLog(plan, world.script, n, world.log)
    ensures Orderly(plan, world.script, world.log)
    ensures world.checks == ChecksMade(world.script, n)
    ensures outcome.Escaped? <==> Escapes(world.script, n)
    ensures outcome.Escaped? <==> IsRaised(world.script, world.log)
    ensures outcome.Finished? ==>
      Reports(plan, world.script, n, outcome.result) && Truthful(world.script, world.log, outcome.result)
  {
    outcome, n := CheckAndCommit(world, plan);
    ProtocolIsOrderly(plan, world.script, n, world.log);
    EscapesIffRaised(plan, world.script, n, world.log);
    if outcome.Finished? { ReportIsTruthful(plan, world.script, n, world.log, outcome.result); }
  }

  // ---------- What the status means ----------

  /** The status says exactly how far the run got: BLOCKED means no commit was attempted, FAILED
      that it was and failed, PARTIALLY_PUBLISHED that it succeeded but some later step did not,
      PUBLISHED that all five steps succeeded. */
  lemma StatusIsExact(plan: PublishPlan, script: Script, n: nat, r: PublicationResult)
    requires Reaches(plan, script, n) && !Escapes(script, n) && Reports(plan, script, n, r)
    ensures r.status == PUBLICATION_BLOCKED <==> n <= 1
    ensures r.status == PUBLICATION_FAILED <==> n == 2 && !Succeeds(script.replies(1))
    ensures r.status == PARTIALLY_PUBLISHED <==>
            n >= 2 && Succeeds(script.replies(1)) && exists k :: 2 <= k < STEPS && (k >= n || !Passed(script, k))
    ensures r.status == PUBLISHED <==> n == STEPS && forall k :: 0 <= k < STEPS ==> Passed(script, k)
  {
    if n >= 3 { assert Passed(script, 1); }
    if n == STEPS {
      assert Passed(script, 0) && Passed(script, 2) && Passed(script, 3);
    }
    if r.status == PARTIALLY_PUBLISHED {
      var last := if n < STEPS then n else 4;
      var unpassed := Passed(script, last);
      assert 2 <= last < STEPS && (last >= n || !unpassed);
    }
  }

  /** Up to check `k` two surroundings are alike. */
  ghost predicate AlikeUntil(a: Script, b: Script, k: nat) {
    forall j :: 0 <= j < k ==> a.readings(j) == b.readings(j) && a.replies(j) == b.replies(j)
  }

  /** Revoking the grant before check `k` cuts the run there and does nothing else: the calls made
      are the first `k` of those the run would have made with the grant left alone, with the same
      arguments. */
  lemma RevocationCutsTheRun(plan: PublishPlan, kept: Script, revoked: Script, k: nat, n: nat, m: nat, log: seq<Entry>,
                             cut: seq<Entry>)
    requires AlikeUntil(kept, revoked, k) && k < STEPS && !Granted(PUBLISH, revoked.readings(k))
    requires Reaches(plan, kept, n) && IsProtocolLog(plan, kept, n, log)
    requires Reaches(plan, revoked, m) && IsProtocolLog(plan, revoked, m, cut)
    ensures m == (if n < k then n else k) && cut == log[..m]
  {
    var l := if n < k then n else k;
    CutReaches(plan, kept, revoked, k, n, l);
    ReachesIsUnique(plan, revoked, m, l);
    forall j | 0 <= j < m ensures cut[j] == log[j] {
      assert CallAt(plan, kept, j) == CallAt(plan, revoked, j);
    }
  }

  lemma CutReaches(plan: PublishPlan, kept: Script, revoked: Script, k: nat, n: nat, m: nat)
    requires AlikeUntil(kept, revoked, k) && k < STEPS && !Granted(PUBLISH, revoked.readings(k))
    requires Reaches(plan, kept, n) && m == (if n < k then n else k)
    ensures Reaches(plan, revoked, m)
  {
    forall j | 0 <= j < m ensures Granted(PUBLISH, revoked.readings(j)) { assert Granted(PUBLISH, kept.readings(j)); }
    forall j | 0 <= j < m - 1 ensures Passed(revoked, j) { assert Passed(kept, j); }
    if m < k && m > 0 { assert Passed(kept, m - 1) <==> Passed(revoked, m - 1); }
  }
}
