/** The mutable workflow state, and every run of the gated graph from a clean start. */
module Workflow {
  import opened Wrappers
  import opened Control
  import opened Gates
  import Eng = Engineering
  import Pub = Publication

  datatype WorkflowState = WorkflowState(
    runId: string, agents: AgentOutputs, authorizations: seq<Grant>, policyDecisions: seq<PolicyDecision>,
    gateHistory: seq<GateDecision>, receipts: seq<Receipt>)

  /** `issue_authorization`: a grant for `scope`, without expiry, given any ALLOW decision. */
  function Issue(s: WorkflowState, scope: ActionType, d: PolicyDecision): Option<WorkflowState> {
    if d.disposition != ALLOW then None
    else Some(s.(authorizations := s.authorizations + [Grant(s.runId, scope, None, true)]))
  }

  // ---------- The state as the nodes update it ----------

  class RunState {
    var state: WorkflowState

    constructor (initial: WorkflowState)
      ensures state == initial
    {
      state := initial;
    }

    method AppendGateHistory(d: GateDecision)
      modifies this
      ensures state == old(state).(gateHistory := old(state).gateHistory + [d])
    {
      state := state.(gateHistory := state.gateHistory + [d]);
    }

    method AppendPolicyDecision(d: PolicyDecision)
      modifies this
      ensures state == old(state).(policyDecisions := old(state).policyDecisions + [d])
    {
      state := state.(policyDecisions := state.policyDecisions + [d]);
    }

    /** False stands for the ValueError; then nothing changes. */
    method IssueAuthorization(scope: ActionType, d: PolicyDecision) returns (ok: bool)
      modifies this
      ensures ok <==> d.disposition == ALLOW
      ensures Issue(old(state), scope, d) == if ok then Some(state) else None
      ensures ok ==>
        state == old(state).(authorizations := old(state).authorizations + [Grant(old(state).runId, scope, None, true)])
      ensures !ok ==> state == old(state)
    {
      if d.disposition != ALLOW {
        return false;
      }
      var authorizations := state.authorizations;
      authorizations := authorizations + [Grant(state.runId, scope, None, true)];
      state := state.(authorizations := authorizations);
      return true;
    }

    method AppendOperationReceipts(receipts: seq<Receipt>)
      modifies this
      ensures state == old(state).(receipts := old(state).receipts + receipts)
    {
      state := state.(receipts := state.receipts + receipts);
    }

    /** The authorization nodes of the graph: record the decision, and issue a grant for the very
        action that was decided, if it was allowed. */
    method AuthorizationGate(env: Platform, auto: bool, action: ActionType)
      requires action == IMPLEMENTATION || action == PUBLISH
      modifies this
      ensures GateStep(env, auto, action, old(state), state)
    {
      var policy := EvaluateActionPolicy(env, auto, state.agents, action);
      AppendPolicyDecision(policy);
      var route := if policy.disposition != ALLOW then SAFETY_STOP
                   else if action == IMPLEMENTATION then READY_FOR_IMPLEMENTATION else READY_FOR_PUBLISH;
      AppendGateHistory(GateDecision(route, policy.blockers));
      if policy.disposition == ALLOW {
        var ok := IssueAuthorization(action, policy);
      }
    }
  }

  /** The publication node: execute under the state's grants, then keep the receipts. An exception
      leaves the state as it was. */
  method PublishVerified(run: RunState, world: Pub.World, plan: Pub.PublishPlan, ghost env: Platform)
    returns (ghost step: Step)
    requires world.checks == 0 && world.calls == 0 && world.log == []
    requires SeesGrantsOf(world.script.readings, run.state)
    modifies run, world
    ensures Next(env, step, old(run.state), run.state)
  {
    ghost var n;
    var outcome;
    outcome, n := Pub.Execute(world, plan);
    if outcome.Escaped? {
      step := PublishRaises(plan, world.script, n);
    } else {
      run.AppendOperationReceipts(outcome.result.receipts);
      step := Publish(plan, world.script, n, outcome.result);
    }
  }

  /** The engineering node likewise. */
  method EngineerVerified(run: RunState, adapter: Eng.LocalDemoCodeChangeAdapter, ws: Eng.Workspace, req: Eng.Request,
                          work: Eng.Script, ghost env: Platform) returns (ghost step: Step)
    requires SeesGrantsOf(work.readings, run.state)
    modifies run, adapter, ws
    ensures Next(env, step, old(run.state), run.state)
  {
    ghost var before, changes := ws.files, Eng.Changes(adapter, ws.files, req, work);
    var outcome := Eng.Execute(adapter, ws, req, work);
    if outcome.Finished? {
      forall r | r in outcome.result.receipts
        ensures ComesFromEngineering(work, changes, r)
      {
        Eng.ReceiptsAreHonest(adapter, before, req, work, outcome.result.receipts, r);
      }
      run.AppendOperationReceipts(outcome.result.receipts);
      step := Engineer(req, work, changes, outcome.result.receipts);
    } else {
      step := OtherReceipts([]);
      assert run.state.receipts + [] == run.state.receipts;
    }
  }

  // ---------- Runs ----------

  ghost predicate GateStep(env: Platform, auto: bool, action: ActionType, s: WorkflowState, s': WorkflowState) {
    && s'.runId == s.runId && s'.agents == s.agents && s'.receipts == s.receipts
    && |s'.policyDecisions| == |s.policyDecisions| + 1 && |s'.gateHistory| == |s.gateHistory| + 1
    && s'.policyDecisions[..|s.policyDecisions|] == s.policyDecisions
    && s'.gateHistory[..|s.gateHistory|] == s.gateHistory
    && s'.policyDecisions[|s.policyDecisions|].action == action
    && (s'.policyDecisions[|s.policyDecisions|].disposition == ALLOW <==> Justified(env, auto, s.agents, action))
    && (s'.gateHistory[|s.gateHistory|].route == SAFETY_STOP <==> !Justified(env, auto, s.agents, action))
    && s'.authorizations == s.authorizations +
         (if Justified(env, auto, s.agents, action) then [Grant(s.runId, action, None, true)] else [])
  }

  /** One step of a run. Agents may write anything at any time; a publication uses any plan, any
      adapters, any clock, and may lose grants to revocation between its checks. */
  datatype Step =
    | AgentWrites(agents: AgentOutputs)
    | Gate(action: ActionType, auto: bool)
    | Publish(plan: Pub.PublishPlan, script: Pub.Script, calls: nat, result: Pub.PublicationResult)
    | PublishRaises(plan: Pub.PublishPlan, script: Pub.Script, calls: nat)
    | Engineer(request: Eng.Request, work: Eng.Script, changes: bool, receipts: seq<Receipt>)
    | OtherReceipts(receipts: seq<Receipt>)

  /** The grants a publication can see are grants of the state it was started in. */
  ghost predicate SeesGrantsOf(readings: nat -> Reading, s: WorkflowState) {
    forall k: nat, g :: g in readings(k).grants ==> g in s.authorizations
  }

  /** A receipt of an engineering run: git's or the tests', under whatever label, or one of the
      executor's own; only under a grant can it be a success. */
  ghost predicate ComesFromEngineering(work: Eng.Script, changes: bool, r: Receipt) {
    && (r.status == SUCCEEDED ==> Granted(IMPLEMENTATION, work.readings(0)))
    && (|| Eng.FromAdapter(work, r)
        || (r.operationType != GitCommit && (r.operationType == CodeChange && r.status == SUCCEEDED ==> changes)))
  }

  ghost predicate Next(env: Platform, step: Step, s: WorkflowState, s': WorkflowState) {
    match step
    case AgentWrites(agents) => s' == s.(agents := agents)
    case Gate(action, auto) => (action == IMPLEMENTATION || action == PUBLISH) && GateStep(env, auto, action, s, s')
    case Publish(plan, script, n, r) =>
      && SeesGrantsOf(script.readings, s) && Pub.Reaches(plan, script, n) && !Pub.Escapes(script, n)
      && Pub.Reports(plan, script, n, r) && s' == s.(receipts := s.receipts + r.receipts)
    case PublishRaises(plan, script, n) =>
      SeesGrantsOf(script.readings, s) && Pub.Reaches(plan, script, n) && Pub.Escapes(script, n) && s' == s
    case Engineer(req, work, changes, rs) =>
      && SeesGrantsOf(work.readings, s) && (changes ==> Eng.Attempts(req, work))
      && (forall r <- rs :: ComesFromEngineering(work, changes, r))
      && s' == s.(receipts := s.receipts + rs)
    case OtherReceipts(rs) =>
      && (forall r <- rs :: r.operationType != GitCommit && r.operationType != CodeChange)
      && s' == s.(receipts := s.receipts + rs)
  }

  /** A run from a state without grants and receipts. */
  ghost predicate IsRun(env: Platform, steps: seq<Step>, states: seq<WorkflowState>) {
    && |states| == |steps| + 1
    && states[0].authorizations == [] && states[0].receipts == []
    && forall i :: 0 <= i < |steps| ==> Next(env, steps[i], states[i], states[i + 1])
  }

  /** Before state `i` a gate for the action found it justified, under the auto-approval it saw. */
  ghost predicate JustifiedBy(env: Platform, steps: seq<Step>, states: seq<WorkflowState>, i: nat, action: ActionType)
    requires i < |states| == |steps| + 1
  {
    exists j :: 0 <= j < i && JustifiedAt(env, steps[j], states[j], action)
  }

  ghost predicate JustifiedAt(env: Platform, step: Step, s: WorkflowState, action: ActionType) {
    step.Gate? && step.action == action && Justified(env, step.auto, s.agents, action)
  }

  /** Every grant in a run was issued by a gate for its own scope that the evidence justified. */
  lemma {:induction false} GrantsAreJustified(env: Platform, steps: seq<Step>, states: seq<WorkflowState>, i: nat,
                                              g: Grant)
    requires IsRun(env, steps, states) && i < |states| && g in states[i].authorizations
    ensures JustifiedBy(env, steps, states, i, g.scope)
    decreases i
  {
    assert i > 0;
    var before := states[i - 1];
    assert Next(env, steps[i - 1], before, states[i]);
    if g in before.authorizations {
      GrantsAreJustified(env, steps, states, i - 1, g);
      var j :| 0 <= j < i - 1 && JustifiedAt(env, steps[j], states[j], g.scope);
    } else {
      assert JustifiedAt(env, steps[i - 1], before, g.scope);
    }
  }

  /** A publication that calls even its first adapter held a PUBLISH grant of the state. */
  lemma CalledMeansGranted(plan: Pub.PublishPlan, script: Pub.Script, n: nat, s: WorkflowState) returns (g: Grant)
    requires Pub.Reaches(plan, script, n) && n > 0 && SeesGrantsOf(script.readings, s)
    ensures g in s.authorizations && g.scope == PUBLISH
  {
    assert Granted(PUBLISH, script.readings(0));
    g :| g in script.readings(0).grants && Covers(g, PUBLISH, script.readings(0));
  }

  lemma SuccessMeansCalled(plan: Pub.PublishPlan, script: Pub.Script, n: nat, r: Pub.PublicationResult,
                           receipt: Receipt)
    requires Pub.Reaches(plan, script, n) && !Pub.Escapes(script, n) && Pub.Reports(plan, script, n, r)
    requires receipt in r.receipts && receipt.status == SUCCEEDED
    ensures n > 0
  {
  }

  /** An engineering run that has a success to show held an IMPLEMENTATION grant of the state. */
  lemma SuccessMeansGranted(work: Eng.Script, changes: bool, s: WorkflowState, receipt: Receipt) returns (g: Grant)
    requires ComesFromEngineering(work, changes, receipt) && receipt.status == SUCCEEDED
      && SeesGrantsOf(work.readings, s)
    ensures g in s.authorizations && g.scope == IMPLEMENTATION
  {
    g :| g in work.readings(0).grants && Covers(g, IMPLEMENTATION, work.readings(0));
  }

  /** Before state `i` git or the tests of an engineering run answered with this very receipt. */
  ghost predicate LabelledByEngineering(steps: seq<Step>, i: nat, receipt: Receipt)
    requires i <= |steps|
  {
    exists j :: 0 <= j < i && steps[j].Engineer? && Eng.FromAdapter(steps[j].work, receipt)
  }

  /** Before state `i` a publication kept this very receipt. */
  ghost predicate LabelledByPublication(steps: seq<Step>, i: nat, receipt: Receipt)
    requires i <= |steps|
  {
    exists j :: 0 <= j < i && steps[j].Publish? && receipt in steps[j].result.receipts
  }

  /** Whole-run safety: a successful commit receipt, in any state of any run, comes after a publish
      gate in whose state there was a clean duplicate check, passed validation and complete executed
      tests, and an allowed publish plan. The only other way to such a receipt is an engineering
      adapter that calls its own work a commit, and that needs a justified implementation gate. */
  lemma {:induction false} CommitWasJustified(env: Platform, steps: seq<Step>, states: seq<WorkflowState>, i: nat,
                                              receipt: Receipt)
    requires IsRun(env, steps, states) && i < |states|
    requires receipt in states[i].receipts && receipt.operationType == GitCommit && receipt.status == SUCCEEDED
    ensures || PublishWasJustified(steps, states, i)
            || (LabelledByEngineering(steps, i, receipt) && JustifiedBy(env, steps, states, i, IMPLEMENTATION))
    decreases i
  {
    assert i > 0;
    var before, step := states[i - 1], steps[i - 1];
    assert Next(env, step, before, states[i]);
    if receipt in before.receipts {
      CommitWasJustified(env, steps, states, i - 1, receipt);
      JustificationLasts(env, steps, states, i - 1, IMPLEMENTATION);
    } else if step.Publish? {
      SuccessMeansCalled(step.plan, step.script, step.calls, step.result, receipt);
      var g := CalledMeansGranted(step.plan, step.script, step.calls, before);
      GrantsAreJustified(env, steps, states, i - 1, g);
      var j :| 0 <= j < i - 1 && JustifiedAt(env, steps[j], states[j], PUBLISH);
      assert PublishEvidence(states[j].agents);
    } else {
      var g := SuccessMeansGranted(step.work, step.changes, before, receipt);
      GrantsAreJustified(env, steps, states, i - 1, g);
      JustificationLasts(env, steps, states, i - 1, IMPLEMENTATION);
    }
  }

  /** Before state `i` there was a publish gate with its evidence. */
  ghost predicate PublishWasJustified(steps: seq<Step>, states: seq<WorkflowState>, i: nat)
    requires i < |states| == |steps| + 1
  {
    exists j :: 0 <= j < i && steps[j].Gate? && steps[j].action == PUBLISH && PublishEvidence(states[j].agents)
  }

  lemma JustificationLasts(env: Platform, steps: seq<Step>, states: seq<WorkflowState>, i: nat, action: ActionType)
    requires i + 1 < |states| == |steps| + 1
    ensures JustifiedBy(env, steps, states, i, action) ==> JustifiedBy(env, steps, states, i + 1, action)
  {
    if JustifiedBy(env, steps, states, i, action) {
      var j :| 0 <= j < i && JustifiedAt(env, steps[j], states[j], action);
    }
  }

  /** Likewise for source changes: a successful change receipt comes after an implementation gate
      that found a clean duplicate check, an authorizing review, and a plan not wholly outside the
      discovered scope - or it is a publication adapter's, under that label, after a justified
      publish gate. */
  lemma {:induction false} ChangeWasJustified(env: Platform, steps: seq<Step>, states: seq<WorkflowState>, i: nat,
                                              receipt: Receipt)
    requires IsRun(env, steps, states) && i < |states|
    requires receipt in states[i].receipts && receipt.operationType == CodeChange && receipt.status == SUCCEEDED
    ensures || JustifiedBy(env, steps, states, i, IMPLEMENTATION)
            || (LabelledByPublication(steps, i, receipt) && JustifiedBy(env, steps, states, i, PUBLISH))
    decreases i
  {
    assert i > 0;
    var before, step := states[i - 1], steps[i - 1];
    assert Next(env, step, before, states[i]);
    if receipt in before.receipts {
      ChangeWasJustified(env, steps, states, i - 1, receipt);
      JustificationLasts(env, steps, states, i - 1, IMPLEMENTATION);
      JustificationLasts(env, steps, states, i - 1, PUBLISH);
    } else if step.Publish? {
      SuccessMeansCalled(step.plan, step.script, step.calls, step.result, receipt);
      var g := CalledMeansGranted(step.plan, step.script, step.calls, before);
      GrantsAreJustified(env, steps, states, i - 1, g);
      JustificationLasts(env, steps, states, i - 1, PUBLISH);
    } else {
      var g := SuccessMeansGranted(step.work, step.changes, before, receipt);
      GrantsAreJustified(env, steps, states, i - 1, g);
      JustificationLasts(env, steps, states, i - 1, IMPLEMENTATION);
    }
  }

  /** The audit trail only grows: no step removes a decision, a gate record, a grant or a receipt. */
  lemma {:induction false} HistoryOnlyGrows(env: Platform, steps: seq<Step>, states: seq<WorkflowState>, i: nat, j: nat)
    requires IsRun(env, steps, states) && i <= j < |states|
    ensures states[i].receipts <= states[j].receipts && states[i].authorizations <= states[j].authorizations
    ensures states[i].policyDecisions <= states[j].policyDecisions && states[i].gateHistory <= states[j].gateHistory
    decreases j - i
  {
    if i < j {
      HistoryOnlyGrows(env, steps, states, i, j - 1);
      assert Next(env, steps[j - 1], states[j - 1], states[j]);
    }
  }

  /** Issuing does not tie the scope to the decided action: with the ALLOW decision that every
      investigation gets, a PUBLISH grant is issued on no evidence at all. */
  lemma UntiedScopeIsUnsafe(env: Platform, auto: bool, s: WorkflowState)
    requires s.agents.documents == map[]
    ensures var d := PolicyDecision(INVESTIGATION, ALLOW, []);
      && Justified(env, auto, s.agents, d.action)
      && Issue(s, PUBLISH, d).Some?
      && (exists g <- Issue(s, PUBLISH, d).value.authorizations :: g.scope == PUBLISH && g.active)
      && !Justified(env, auto, s.agents, PUBLISH)
  {
    var s' := Issue(s, PUBLISH, PolicyDecision(INVESTIGATION, ALLOW, [])).value;
    assert s'.authorizations[|s.authorizations|] == Grant(s.runId, PUBLISH, None, true);
  }

  /** Every grant of the state is justified by the state. */
  ghost predicate AllJustified(env: Platform, auto: bool, s: WorkflowState) {
    forall g <- s.authorizations :: Justified(env, auto, s.agents, g.scope)
  }

  /** Whatever the state, issuing a grant for `scope` on an allowed decision about `action` leaves
      every grant justified. */
  ghost predicate SafeToIssue(env: Platform, auto: bool, scope: ActionType, action: ActionType) {
    forall s: WorkflowState, d: PolicyDecision ::
      d.action == action && d.disposition == ALLOW && Justified(env, auto, s.agents, action)
      && AllJustified(env, auto, s)
      ==> AllJustified(env, auto, Issue(s, scope, d).value)
  }

  /** Scopes that need no evidence. */
  predicate Free(action: ActionType) {
    action == INVESTIGATION || action == CUSTOMER_RESPONSE
  }

  /** Actions that policy never allows by itself. */
  predicate NeverAllowed(action: ActionType) {
    action == PRODUCTION || action == CLOSE_TICKET
  }

  /** A caller is safe exactly when it passes the decided action as the scope, or a scope that needs
      no evidence; decisions about production and ticket closure never come out ALLOW. */
  lemma IssueIsSafeIff(env: Platform, auto: bool, scope: ActionType, action: ActionType)
    ensures SafeToIssue(env, auto, scope, action) <==> scope == action || Free(scope) || NeverAllowed(action)
  {
    if scope == action || Free(scope) || NeverAllowed(action) {
      forall s: WorkflowState, d: PolicyDecision
        | d.action == action && d.disposition == ALLOW && Justified(env, auto, s.agents, action)
          && AllJustified(env, auto, s)
        ensures AllJustified(env, auto, Issue(s, scope, d).value)
      {
        OneMoreJustified(env, auto, s, scope, d);
      }
    } else {
      UnsafeToIssue(env, auto, scope, action);
    }
  }

  lemma OneMoreJustified(env: Platform, auto: bool, s: WorkflowState, scope: ActionType, d: PolicyDecision)
    requires d.disposition == ALLOW && AllJustified(env, auto, s) && Justified(env, auto, s.agents, scope)
    ensures AllJustified(env, auto, Issue(s, scope, d).value)
  {
  }

  lemma UnsafeToIssue(env: Platform, auto: bool, scope: ActionType, action: ActionType)
    requires scope != action && !Free(scope) && !NeverAllowed(action)
    ensures !SafeToIssue(env, auto, scope, action)
  {
    var o := OnlyEvidenceFor(env, auto, action, scope);
    var s, d := WorkflowState("", o, [], [], [], []), PolicyDecision(action, ALLOW, []);
    IssuedUnjustified(env, auto, s, scope, d);
  }

  lemma IssuedUnjustified(env: Platform, auto: bool, s: WorkflowState, scope: ActionType, d: PolicyDecision)
    requires d.disposition == ALLOW && !Justified(env, auto, s.agents, scope)
    ensures !AllJustified(env, auto, Issue(s, scope, d).value)
  {
    assert Issue(s, scope, d).value.authorizations[|s.authorizations|].scope == scope;
  }

  /** Evidence for one action is no evidence for another that needs some. */
  lemma OnlyEvidenceFor(env: Platform, auto: bool, action: ActionType, other: ActionType) returns (o: AgentOutputs)
    requires !NeverAllowed(action) && !Free(other) && action != other
    ensures Justified(env, auto, o, action) && !Justified(env, auto, o, other)
  {
    var yes := Bool(true);
    var clean: Document := map["duplicate_status" := Text("NO_DUPLICATE_FOUND")];
    if action == PUBLISH {
      var passed: Document := map["overall_status" := Text("PASSED"), "implementation_ready_for_review" := yes,
                                  "tests_executed" := yes, "required_testing_completed" := yes];
      o := AgentOutputs(map["duplicate_work_analysis" := clean,
                            "validation_analysis" := passed, "test_result" := passed,
                            "publish_plan" := map["publication_allowed" := yes]], [], None, []);
    } else if action == IMPLEMENTATION {
      var review: Document := map["review_status" := Text("APPROVED"),
        "root_cause_sufficiently_established" := yes, "remediation_alignment" := yes,
        "implementation_scope_acceptable" := yes,
        "duplicate_work_safety_passed" := yes, "regression_risk_acceptable" := yes, "implementation_reviewable" := yes];
      o := AgentOutputs(map["duplicate_work_analysis" := clean, "review_analysis" := review], [], None, []);
      assert EveryCheckPassed(o);
    } else {
      o := AgentOutputs(map[], [], None, []);
    }
  }
}
