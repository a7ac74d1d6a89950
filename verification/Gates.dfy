/** The deterministic gates: which action the recorded evidence authorizes. Agent outputs are
    arbitrary documents; only what a gate reads of them matters. */
module Gates {
  import opened Wrappers
  import opened Control
  import RepoRefs
  import Strings

  /** A field of an agent document. `is True` holds of `Bool(true)` alone. */
  datatype Json = Null | Bool(flag: bool) | Text(text: string) | OtherJson(id: int)

  type Document = map<string, Json>

  datatype Finding = Finding(severity: Json, requiresAction: bool)

  /** Everything agents write. `discovery` is None when discovery did not run; `declared` lists the
      components and files of the remediation plan. */
  datatype AgentOutputs = AgentOutputs(
    documents: map<string, Document>, findings: seq<Finding>, discovery: Option<seq<RepoRefs.RepoRef>>,
    declared: seq<string>)

  /** What the process adds: Unicode case folding. */
  datatype Platform = Platform(fold: string -> string)

  function Value(o: AgentOutputs, key: string, field: string): Json {
    if key in o.documents && field in o.documents[key] then o.documents[key][field] else Null
  }

  predicate Says(o: AgentOutputs, key: string, field: string, text: string) {
    Value(o, key, field) == Text(text)
  }

  predicate IsTrue(o: AgentOutputs, key: string, field: string) {
    Value(o, key, field) == Bool(true)
  }

  /** The document `key` has `field`, and it is `value`. */
  ghost predicate Holds(o: AgentOutputs, key: string, field: string, value: Json) {
    key in o.documents && field in o.documents[key] && o.documents[key][field] == value
  }

  datatype Route = SAFETY_STOP | READY_FOR_IMPLEMENTATION | READY_FOR_PUBLISH

  datatype GateDecision = GateDecision(route: Route, blockers: seq<string>)

  datatype Disposition = ALLOW | DENY | PAUSE | REQUEST_INFORMATION

  datatype PolicyDecision = PolicyDecision(action: ActionType, disposition: Disposition, blockers: seq<string>)

  // ---------- Review ----------

  const REVIEW_CHECKS := ["root_cause_sufficiently_established", "remediation_alignment",
                          "implementation_scope_acceptable", "duplicate_work_safety_passed",
                          "regression_risk_acceptable", "implementation_reviewable"]

  predicate Blocks(f: Finding) {
    f.requiresAction && (f.severity == Text("HIGH") || f.severity == Text("CRITICAL"))
  }

  /** `evaluate_review_gate` collects failed checks and blocking findings, then decides. `auto`:
      the state, the environment or a flag file switches auto-approval on at this moment. */
  method EvaluateReviewGate(auto: bool, o: AgentOutputs) returns (d: GateDecision)
    ensures d.route == READY_FOR_IMPLEMENTATION <==> ReviewAuthorizes(auto, o)
    ensures d.route != READY_FOR_PUBLISH
    ensures d.route == SAFETY_STOP ==> d.blockers != []
  {
    var failed: seq<string> := [];
    for i := 0 to |REVIEW_CHECKS|
      invariant failed == [] <==> forall j :: 0 <= j < i ==> IsTrue(o, "review_analysis", REVIEW_CHECKS[j])
    {
      if !IsTrue(o, "review_analysis", REVIEW_CHECKS[i]) {
        failed := failed + ["REVIEW_CHECK_FAILED:" + REVIEW_CHECKS[i]];
      }
    }
    var high: seq<string> := [];
    for i := 0 to |o.findings|
      invariant high == [] <==> forall j :: 0 <= j < i ==> !Blocks(o.findings[j])
    {
      if Blocks(o.findings[i]) {
        high := high + ["REVIEW_FINDING:" + o.findings[i].severity.text + "_ACTION_REQUIRED"];
      }
    }
    assert high == [] <==> NoBlockingFinding(o);
    EveryCheckPassedIff(o);
    var approved := Says(o, "review_analysis", "review_status", "APPROVED");
    if auto && (approved || Says(o, "remediation_plan", "remediation_status", "READY")) && high == [] {
      return GateDecision(READY_FOR_IMPLEMENTATION, []);
    }
    if approved && failed == [] && high == [] {
      return GateDecision(READY_FOR_IMPLEMENTATION, []);
    }
    return GateDecision(SAFETY_STOP, ["REVIEW_STATUS"] + failed + high);
  }

  /** No finding that requires action is of high or critical severity. */
  ghost predicate NoBlockingFinding(o: AgentOutputs) {
    forall f <- o.findings :: f.requiresAction ==> f.severity != Text("HIGH") && f.severity != Text("CRITICAL")
  }

  ghost predicate EveryCheckPassed(o: AgentOutputs) {
    && Holds(o, "review_analysis", "root_cause_sufficiently_established", Bool(true))
    && Holds(o, "review_analysis", "remediation_alignment", Bool(true))
    && Holds(o, "review_analysis", "implementation_scope_acceptable", Bool(true))
    && Holds(o, "review_analysis", "duplicate_work_safety_passed", Bool(true))
    && Holds(o, "review_analysis", "regression_risk_acceptable", Bool(true))
    && Holds(o, "review_analysis", "implementation_reviewable", Bool(true))
  }

  lemma EveryCheckPassedIff(o: AgentOutputs)
    ensures EveryCheckPassed(o) <==>
            forall j :: 0 <= j < |REVIEW_CHECKS| ==> IsTrue(o, "review_analysis", REVIEW_CHECKS[j])
  {
    var checks, key := REVIEW_CHECKS, "review_analysis";
    assert |checks| == 6;
    assert (forall j :: 0 <= j < |checks| ==> IsTrue(o, key, checks[j])) <==>
      (IsTrue(o, key, checks[0]) && IsTrue(o, key, checks[1]) && IsTrue(o, key, checks[2])
       && IsTrue(o, key, checks[3]) && IsTrue(o, key, checks[4]) && IsTrue(o, key, checks[5]));
  }

  ghost predicate ReviewAuthorizes(auto: bool, o: AgentOutputs) {
    && NoBlockingFinding(o)
    && ((Holds(o, "review_analysis", "review_status", Text("APPROVED")) && (auto || EveryCheckPassed(o)))
        || (auto && Holds(o, "remediation_plan", "remediation_status", Text("READY"))))
  }

  // ---------- Validation ----------

  ghost predicate ValidatedAndTested(o: AgentOutputs) {
    && Holds(o, "validation_analysis", "overall_status", Text("PASSED"))
    && Holds(o, "validation_analysis", "implementation_ready_for_review", Bool(true))
    && Holds(o, "test_result", "overall_status", Text("PASSED"))
    && Holds(o, "test_result", "tests_executed", Bool(true))
    && Holds(o, "test_result", "required_testing_completed", Bool(true))
  }

  method EvaluateValidationGate(o: AgentOutputs) returns (d: GateDecision)
    ensures d.route == if ValidatedAndTested(o) then READY_FOR_PUBLISH else SAFETY_STOP
    ensures d.blockers == [] <==> ValidatedAndTested(o)
  {
    var blockers: seq<string> := [];
    if !Says(o, "validation_analysis", "overall_status", "PASSED") { blockers := blockers + ["VALIDATION_STATUS"]; }
    if !Says(o, "test_result", "overall_status", "PASSED") { blockers := blockers + ["TEST_STATUS"]; }
    if !IsTrue(o, "validation_analysis", "implementation_ready_for_review") {
      blockers := blockers + ["VALIDATION_NOT_READY_FOR_REVIEW"];
    }
    if !IsTrue(o, "test_result", "tests_executed") { blockers := blockers + ["TESTS_NOT_EXECUTED"]; }
    if !IsTrue(o, "test_result", "required_testing_completed") {
      blockers := blockers + ["REQUIRED_TESTING_INCOMPLETE"];
    }
    return GateDecision(if blockers == [] then READY_FOR_PUBLISH else SAFETY_STOP, blockers);
  }

  // ---------- Discovery scope ----------

  /** A declared item names a selected repository, by `provider:workspace/repo` or by (non-empty) slug. */
  ghost predicate Names(env: Platform, item: string, r: RepoRefs.RepoRef) {
    || Strings.Contains(env.fold(item), env.fold(r.provider + ":" + r.workspace + "/" + r.repo))
    || (env.fold(r.repo) != "" && Strings.Contains(env.fold(item), env.fold(r.repo)))
  }

  ghost predicate InScope(env: Platform, item: string, selected: seq<RepoRefs.RepoRef>) {
    exists r <- selected :: Names(env, item, r)
  }

  /** `_discovery_scope_violation`: the loop returns at the first item in scope. */
  method ScopeViolation(env: Platform, o: AgentOutputs) returns (violation: bool)
    ensures violation <==> ScopeViolated(env, o)
  {
    if o.discovery.None? || o.discovery.value == [] || o.declared == [] {
      return false;
    }
    var selected := o.discovery.value;
    var repos := (set r | r in selected :: env.fold(r.repo)) - {""};
    var keys := set r | r in selected :: env.fold(RepoRefs.Key(r));
    for i := 0 to |o.declared|
      invariant forall j :: 0 <= j < i ==> !InScope(env, o.declared[j], selected)
    {
      var folded := env.fold(o.declared[i]);
      if exists key <- keys :: Strings.Contains(folded, key) {
        return false;
      }
      if exists repo <- repos :: Strings.Contains(folded, repo) {
        return false;
      }
      forall r | r in selected ensures !Names(env, o.declared[i], r) {
        assert env.fold(RepoRefs.Key(r)) in keys && (env.fold(r.repo) in repos || env.fold(r.repo) == "");
      }
    }
    return true;
  }

  ghost predicate DiscoveryApplies(o: AgentOutputs) {
    o.discovery.Some? && o.discovery.value != [] && o.declared != []
  }

  ghost predicate ScopeViolated(env: Platform, o: AgentOutputs) {
    DiscoveryApplies(o) && forall i :: 0 <= i < |o.declared| ==> !InScope(env, o.declared[i], o.discovery.value)
  }

  /** What the function's description promises: every declared item must be in scope. */
  ghost predicate EscapesScope(env: Platform, o: AgentOutputs) {
    DiscoveryApplies(o) && exists i :: 0 <= i < |o.declared| && !InScope(env, o.declared[i], o.discovery.value)
  }

  /** The declared items disagree: some are in scope, some are not. */
  ghost predicate MixedScope(env: Platform, o: AgentOutputs) {
    && DiscoveryApplies(o)
    && (exists i :: 0 <= i < |o.declared| && InScope(env, o.declared[i], o.discovery.value))
    && (exists i :: 0 <= i < |o.declared| && !InScope(env, o.declared[i], o.discovery.value))
  }

  /** One item in scope is enough for the code, so it keeps the promise exactly on the plans whose
      declared items are all in scope or all out of it. */
  lemma ScopeCheckKeepsPromiseIffUnmixed(env: Platform, o: AgentOutputs)
    ensures (ScopeViolated(env, o) <==> EscapesScope(env, o)) <==> !MixedScope(env, o)
  {
    if DiscoveryApplies(o) {
      assert InScope(env, o.declared[0], o.discovery.value) || !InScope(env, o.declared[0], o.discovery.value);
    }
  }

  /** A plan that names a discovered repository and a foreign one passes. */
  lemma MixedPlanPasses() returns (env: Platform, o: AgentOutputs)
    ensures MixedScope(env, o) && !ScopeViolated(env, o) && EscapesScope(env, o)
  {
    env := Platform(s => s);
    var r := RepoRefs.RepoRef("github", "acme", "billing");
    o := AgentOutputs(map[], [], Some([r]), ["billing", "x"]);
    var item := "billing";
    assert item[0..] == item;
    assert Strings.Contains(item, item);
    assert Names(env, "billing", r);
    assert InScope(env, o.declared[0], [r]);
    assert |RepoRefs.Key(r)| > 1;
    assert !Names(env, "x", r);
    assert !InScope(env, o.declared[1], [r]);
  }

  // ---------- Policy ----------

  ghost predicate DuplicateClean(o: AgentOutputs) {
    Holds(o, "duplicate_work_analysis", "duplicate_status", Text("NO_DUPLICATE_FOUND"))
  }

  /** What publishing rests on. */
  ghost predicate PublishEvidence(o: AgentOutputs) {
    DuplicateClean(o) && ValidatedAndTested(o) && Holds(o, "publish_plan", "publication_allowed", Bool(true))
  }

  /** What modifying source rests on. */
  ghost predicate ImplementationEvidence(env: Platform, auto: bool, o: AgentOutputs) {
    DuplicateClean(o) && ReviewAuthorizes(auto, o) && !ScopeViolated(env, o)
  }

  /** What each action needs before policy allows it. */
  ghost predicate Justified(env: Platform, auto: bool, o: AgentOutputs, action: ActionType) {
    match action
    case INVESTIGATION => true
    case CUSTOMER_RESPONSE => true
    case IMPLEMENTATION => ImplementationEvidence(env, auto, o)
    case PUBLISH => PublishEvidence(o)
    case PRODUCTION => false
    case CLOSE_TICKET => false
  }

  /** The policy for publishing, once the duplicate check is clean. */
  method DecidePublish(o: AgentOutputs) returns (d: PolicyDecision)
    requires DuplicateClean(o)
    ensures d.action == PUBLISH && d.disposition in {ALLOW, DENY}
    ensures d.disposition == ALLOW <==> PublishEvidence(o)
    ensures d.disposition == ALLOW <==> d.blockers == []
  {
    var validation := EvaluateValidationGate(o);
    var publish := IsTrue(o, "publish_plan", "publication_allowed");
    if validation.route != READY_FOR_PUBLISH || !publish {
      var blockers := validation.blockers;
      if !publish {
        blockers := blockers + ["PUBLISH_PLAN_NOT_AUTHORIZED"];
      }
      return PolicyDecision(PUBLISH, DENY, blockers);
    }
    return PolicyDecision(PUBLISH, ALLOW, []);
  }

  /** The policy for modifying source, once the duplicate check is clean. */
  method DecideImplementation(env: Platform, auto: bool, o: AgentOutputs) returns (d: PolicyDecision)
    requires DuplicateClean(o)
    ensures d.action == IMPLEMENTATION && d.disposition in {ALLOW, DENY}
    ensures d.disposition == ALLOW <==> ImplementationEvidence(env, auto, o)
    ensures d.disposition == ALLOW <==> d.blockers == []
  {
    var review := EvaluateReviewGate(auto, o);
    if review.route != READY_FOR_IMPLEMENTATION {
      return PolicyDecision(IMPLEMENTATION, DENY, review.blockers);
    }
    var violation := ScopeViolation(env, o);
    if violation {
      return PolicyDecision(IMPLEMENTATION, DENY, ["REPO_NOT_IN_DISCOVERY_SCOPE"]);
    }
    return PolicyDecision(IMPLEMENTATION, ALLOW, []);
  }

  /** `evaluate_action_policy`: allowed exactly when justified; an incomplete duplicate search asks
      for information, production and ticket closure pause for a human, the rest is denied. */
  method EvaluateActionPolicy(env: Platform, auto: bool, o: AgentOutputs, action: ActionType)
    returns (d: PolicyDecision)
    ensures d.action == action
    ensures d.disposition == ALLOW <==> Justified(env, auto, o, action)
    ensures d.disposition == PAUSE <==> action == PRODUCTION || action == CLOSE_TICKET
    ensures d.disposition == REQUEST_INFORMATION <==>
      (action == IMPLEMENTATION || action == PUBLISH)
      && Holds(o, "duplicate_work_analysis", "duplicate_status", Text("INSUFFICIENT_EVIDENCE"))
    ensures d.disposition == ALLOW <==> d.blockers == []
  {
    if action == PRODUCTION {
      return PolicyDecision(action, PAUSE, ["PRODUCTION_ACTION_REQUIRES_HUMAN_APPROVAL"]);
    }
    if action == INVESTIGATION {
      return PolicyDecision(action, ALLOW, []);
    }
    if (action == IMPLEMENTATION || action == PUBLISH)
       && !Says(o, "duplicate_work_analysis", "duplicate_status", "NO_DUPLICATE_FOUND") {
      var incomplete := Says(o, "duplicate_work_analysis", "duplicate_status", "INSUFFICIENT_EVIDENCE");
      return PolicyDecision(action, if incomplete then REQUEST_INFORMATION else DENY, ["NO_VERIFIED_DUPLICATE_CHECK"]);
    }
    if action == IMPLEMENTATION {
      d := DecideImplementation(env, auto, o);
      return;
    }
    if action == PUBLISH {
      d := DecidePublish(o);
      return;
    }
    if action == CLOSE_TICKET {
      return PolicyDecision(action, PAUSE, ["TICKET_CLOSURE_REQUIRES_EXPLICIT_APPROVAL"]);
    }
    return PolicyDecision(action, ALLOW, []);
  }
}
