/** Control-plane contracts shared by the gates and the executors. */
module Control {
  import opened Wrappers

  datatype ActionType = INVESTIGATION | IMPLEMENTATION | PUBLISH | PRODUCTION | CUSTOMER_RESPONSE | CLOSE_TICKET

  /** A scoped permission. An absent run id and the empty one are both falsy, so "" stands for either. */
  datatype Grant = Grant(runId: string, scope: ActionType, expiresAt: Option<int>, active: bool)

  /** Operation types the repository's own code writes; an adapter may write any other. */
  datatype OperationType =
    | GitPreflight | GitCommit | GitPush | GithubPullRequest | GithubPullRequestVerify
    | PublicationAuthorization | PublicationPlan | PublicationScope
    | CodeChange | CodeChangeRollback | TestExecution
    | ImplementationAuthorization | ImplementationPlan | ImplementationScope
    | Other(name: string)

  datatype OperationStatus = SUCCEEDED | FAILED | PARTIAL | BLOCKED

  /** Evidence of one external operation; `error == ""` when there is none. */
  datatype Receipt = Receipt(operationType: OperationType, status: OperationStatus, externalId: Option<string>,
                             url: Option<string>, error: string)

  function Refusal(t: OperationType, error: string): Receipt {
    Receipt(t, BLOCKED, None, None, error)
  }

  function ErrorOr(r: Receipt, default: string): string {
    if r.error != "" then r.error else default
  }

  /** What one grant check sees: the run, its grants at that moment, and the clock. */
  datatype Reading = Reading(runId: string, grants: seq<Grant>, now: int)

  predicate Covers(g: Grant, scope: ActionType, r: Reading) {
    && g.scope == scope && g.active
    && (g.runId == "" || r.runId == "" || g.runId == r.runId)
    && (g.expiresAt.Some? ==> r.now < g.expiresAt.value)
  }

  ghost predicate Granted(scope: ActionType, r: Reading) {
    exists g <- r.grants :: Covers(g, scope, r)
  }

  ghost predicate IsFirst(g: Grant, scope: ActionType, r: Reading) {
    exists i :: 0 <= i < |r.grants| && r.grants[i] == g && forall j :: 0 <= j < i ==> !Covers(r.grants[j], scope, r)
  }

  /** For another action, revoked, another run's, or expired at this reading. */
  predicate IsPassedOver(g: Grant, scope: ActionType, r: Reading) {
    || g.scope != scope || !g.active
    || (g.runId != "" && r.runId != "" && g.runId != r.runId)
    || (g.expiresAt.Some? && g.expiresAt.value <= r.now)
  }

  /** `_grant`: the first grant that covers `scope` at this reading. */
  method FindGrant(scope: ActionType, r: Reading) returns (found: Option<Grant>)
    ensures found.Some? <==> Granted(scope, r)
    ensures found.Some? ==> Covers(found.value, scope, r) && IsFirst(found.value, scope, r)
    ensures found.None? <==> forall g <- r.grants :: IsPassedOver(g, scope, r)
    ensures found.Some? ==> !IsPassedOver(found.value, scope, r)
  {
    var i := 0;
    while i < |r.grants|
      invariant 0 <= i <= |r.grants|
      invariant forall j :: 0 <= j < i ==> !Covers(r.grants[j], scope, r)
    {
      var g := r.grants[i];
      i := i + 1;
      if g.scope != scope || !g.active {
        continue;
      }
      if g.runId != "" && r.runId != "" && g.runId != r.runId {
        continue;
      }
      if g.expiresAt.Some? && g.expiresAt.value <= r.now {
        continue;
      }
      assert r.grants[i - 1] == g && g in r.grants && Covers(g, scope, r);
      return Some(g);
    }
    return None;
  }

  /** An adapter's answer: a receipt, or an exception that the executors do not catch. */
  datatype Reply = Returned(receipt: Receipt) | Raised

  predicate Succeeds(r: Reply) {
    r.Returned? && r.receipt.status == SUCCEEDED
  }
}
