/** `IntegrationGateway` around the in-memory adapters: allow-list, dry run, circuit breaker. */
module Integrations {
  import opened Wrappers
  import opened Control
  import opened CircuitBreakers
  import Strings

  datatype Permission =
    READ_ISSUES | WRITE_ISSUES | READ_REPOSITORY | WRITE_REPOSITORY
    | READ_CI | TRIGGER_CI | READ_MONITORING | SEND_NOTIFICATIONS

  predicate IsRead(p: Permission) {
    p == READ_ISSUES || p == READ_REPOSITORY || p == READ_CI || p == READ_MONITORING
  }

  datatype Policy = Policy(dryRun: bool, permissions: set<Permission>, targets: set<string>, maxPayload: int)

  /** An empty target list allows every target. */
  predicate PolicyAllows(policy: Policy, permission: Permission, target: string) {
    permission in policy.permissions && (policy.targets == {} || target in policy.targets)
  }

  // ---------- The in-memory adapters ----------

  datatype Issue = Issue(title: string, status: string)

  datatype Comment = Comment(issueKey: string, body: string)

  datatype Message = Message(channel: string, text: string)

  /** The fields of the issue, CI, notification and monitoring adapters: `runs` has the commit of
      each pipeline run, `incidents` the service of each incident. `fold` is `str.casefold`. */
  datatype Stores = Stores(issues: map<string, Issue>, comments: seq<Comment>, runs: map<string, string>,
                           messages: seq<Message>, incidents: map<string, string>, fold: string -> string)

  /** The operations adapters pass to the gateway. `runId` is the fresh id of a run. `External` is an
      operation of an adapter with no store here: it may return or raise anything. */
  datatype Operation =
    | SearchIssues(query: string)
    | AddComment(issueKey: string, body: string)
    | UpdateCaseStatus(caseId: string, status: string)
    | TriggerPipeline(pipeline: string, commit: string, runId: string)
    | ReadPipelineStatus(run: string)
    | ReadIncidents(service: string)
    | SendNotification(channel: string, text: string)
    | External(permission: Permission, target: string, outcome: Outcome)

  /** `items` is what a read finds. */
  datatype Outcome = Done(status: OperationStatus, items: set<string>) | Raises

  function PermissionOf(op: Operation): Permission {
    match op
    case SearchIssues(_) => READ_ISSUES
    case AddComment(_, _) => WRITE_ISSUES
    case UpdateCaseStatus(_, _) => WRITE_ISSUES
    case TriggerPipeline(_, _, _) => TRIGGER_CI
    case ReadPipelineStatus(_) => READ_CI
    case ReadIncidents(_) => READ_MONITORING
    case SendNotification(_, _) => SEND_NOTIFICATIONS
    case External(permission, _, _) => permission
  }

  function TargetOf(op: Operation): string {
    match op
    case SearchIssues(_) => "issue_tracker"
    case AddComment(key, _) => key
    case UpdateCaseStatus(caseId, _) => caseId
    case TriggerPipeline(pipeline, _, _) => pipeline
    case ReadPipelineStatus(run) => run
    case ReadIncidents(service) => service
    case SendNotification(channel, _) => channel
    case External(_, target, _) => target
  }

  predicate Matches(fold: string -> string, query: string, key: string, title: string) {
    Strings.Contains(fold(key + " " + title), fold(query))
  }

  /** The stores after an operation, and its outcome. */
  function Performed(s: Stores, op: Operation): (Stores, Outcome) {
    match op
    case AddComment(key, body) =>
      if key in s.issues then (s.(comments := s.comments + [Comment(key, body)]), Done(SUCCEEDED, {}))
      else (s, Done(FAILED, {}))
    case UpdateCaseStatus(key, status) =>
      if key in s.issues then (s.(issues := s.issues[key := s.issues[key].(status := status)]), Done(SUCCEEDED, {}))
      else (s, Done(FAILED, {}))
    case TriggerPipeline(_, commit, runId) => (s.(runs := s.runs[runId := commit]), Done(SUCCEEDED, {}))
    case ReadPipelineStatus(run) => (s, if run in s.runs then Done(SUCCEEDED, {s.runs[run]}) else Done(FAILED, {}))
    case SendNotification(channel, text) => (s.(messages := s.messages + [Message(channel, text)]), Done(SUCCEEDED, {}))
    case SearchIssues(query) =>
      (s, Done(SUCCEEDED, set k | k in s.issues && Matches(s.fold, query, k, s.issues[k].title)))
    case ReadIncidents(service) => (s, Done(SUCCEEDED, set k | k in s.incidents && s.incidents[k] == service))
    case External(_, _, outcome) => (s, outcome)
  }

  /** One call of the gateway: the operation, its payload's size, and the clock when the breaker is
      asked and when a failure is recorded. */
  datatype Call = Call(op: Operation, payloadBytes: nat, asked: real, recorded: real)

  /** The checks that follow the breaker's. */
  predicate Refuses(policy: Policy, c: Call) {
    || c.payloadBytes > policy.maxPayload
    || !PolicyAllows(policy, PermissionOf(c.op), TargetOf(c.op))
    || (policy.dryRun && !IsRead(PermissionOf(c.op)))
  }

  /** `metrics`: the status label of every increment; `ran`: for every operation run, whether it returned. */
  datatype World = World(stores: Stores, breaker: Option<Breaker>, metrics: seq<OperationStatus>, ran: seq<bool>)

  predicate Lets(w: World, c: Call) {
    w.breaker.Some? ==> Allows(w.breaker.value, c.asked)
  }

  function StatusOf(policy: Policy, w: World, c: Call): OperationStatus {
    if !Lets(w, c) || Refuses(policy, c) then BLOCKED else
      match Performed(w.stores, c.op).1 case Done(status, _) => status case Raises => FAILED
  }

  /** What the adapter returns besides the receipt: what was found, if the receipt says SUCCEEDED. */
  function ItemsOf(policy: Policy, w: World, c: Call): set<string> {
    if StatusOf(policy, w, c) != SUCCEEDED then {} else Performed(w.stores, c.op).1.items
  }

  /** The world after one call. */
  function After(policy: Policy, w: World, c: Call): World {
    var asked := if w.breaker.Some? then Some(Allowed(w.breaker.value, c.asked)) else None;
    var w' := w.(breaker := asked, metrics := w.metrics + [StatusOf(policy, w, c)]);
    if !Lets(w, c) || Refuses(policy, c) then w' else
      var (stores, outcome) := Performed(w.stores, c.op);
      w'.(stores := stores, ran := w.ran + [outcome.Done?],
          breaker := if asked.None? then None
                     else if outcome.Done? then Some(Succeeded(asked.value)) else Some(Failed(asked.value, c.recorded)))
  }

  // ---------- What a call comes to ----------

  /** The permission and the target are allow-listed, and the payload is within bounds. */
  predicate IsAllowListed(policy: Policy, permission: Permission, target: string, c: Call) {
    && permission in policy.permissions && (policy.targets == {} || target in policy.targets)
    && c.payloadBytes <= policy.maxPayload
  }

  /** What a call says: BLOCKED unless it may run and, if it is not a read, this is no dry run; then SUCCEEDED
      exactly if `found`. */
  ghost predicate Says(status: OperationStatus, runs: bool, found: bool) {
    status == if !runs then BLOCKED else if found then SUCCEEDED else FAILED
  }

  /** What a call comes to, operation by operation: the permission it needs, the target that is checked, what it
      finds or changes. `lets`: the breaker lets the call through. */
  ghost predicate Serves(policy: Policy, lets: bool, s: Stores, c: Call, status: OperationStatus, items: set<string>,
                         s': Stores) {
    var live := lets && !policy.dryRun;
    match c.op
    case SearchIssues(query) =>
      && Says(status, lets && IsAllowListed(policy, READ_ISSUES, "issue_tracker", c), true) && s' == s
      && items == (if status != SUCCEEDED then {} else
           set k | k in s.issues && Strings.Contains(s.fold(k + " " + s.issues[k].title), s.fold(query)))
    case AddComment(key, body) =>
      && Says(status, live && IsAllowListed(policy, WRITE_ISSUES, key, c), key in s.issues) && items == {}
      && s' == if status == SUCCEEDED then s.(comments := s.comments + [Comment(key, body)]) else s
    case UpdateCaseStatus(key, wanted) =>
      && Says(status, live && IsAllowListed(policy, WRITE_ISSUES, key, c), key in s.issues) && items == {}
      && s' == if status == SUCCEEDED then s.(issues := s.issues[key := Issue(s.issues[key].title, wanted)]) else s
    case TriggerPipeline(pipeline, commit, runId) =>
      && Says(status, live && IsAllowListed(policy, TRIGGER_CI, pipeline, c), true) && items == {}
      && s' == if status == SUCCEEDED then s.(runs := s.runs[runId := commit]) else s
    case ReadPipelineStatus(run) =>
      && Says(status, lets && IsAllowListed(policy, READ_CI, run, c), run in s.runs) && s' == s
      && items == if status == SUCCEEDED then {s.runs[run]} else {}
    case ReadIncidents(service) =>
      && Says(status, lets && IsAllowListed(policy, READ_MONITORING, service, c), true) && s' == s
      && items == (if status == SUCCEEDED then set k | k in s.incidents && s.incidents[k] == service else {})
    case SendNotification(channel, text) =>
      && Says(status, live && IsAllowListed(policy, SEND_NOTIFICATIONS, channel, c), true) && items == {}
      && s' == if status == SUCCEEDED then s.(messages := s.messages + [Message(channel, text)]) else s
    case External(permission, target, outcome) =>
      var isRead := permission in {READ_ISSUES, READ_REPOSITORY, READ_CI, READ_MONITORING};
      var runs := lets && IsAllowListed(policy, permission, target, c) && (policy.dryRun ==> isRead);
      && s' == s && status == (if !runs then BLOCKED else if outcome.Raises? then FAILED else outcome.status)
      && items == if runs && outcome.Done? && outcome.status == SUCCEEDED then outcome.items else {}
  }

  lemma CallServes(policy: Policy, w: World, c: Call)
    ensures Serves(policy, Lets(w, c), w.stores, c, StatusOf(policy, w, c), ItemsOf(policy, w, c),
                   After(policy, w, c).stores)
    ensures After(policy, w, c).metrics == w.metrics + [StatusOf(policy, w, c)]
  {
    var s, s' := w.stores, After(policy, w, c).stores;
    match c.op {
      case SearchIssues(query) =>
        assert forall k <- s.issues :: Matches(s.fold, query, k, s.issues[k].title) <==>
                                       Strings.Contains(s.fold(k + " " + s.issues[k].title), s.fold(query));
      case AddComment(_, _) =>
      case UpdateCaseStatus(_, _) =>
      case TriggerPipeline(_, _, _) =>
      case ReadPipelineStatus(_) =>
      case ReadIncidents(_) =>
      case SendNotification(_, _) =>
      case External(_, _, _) =>
    }
  }

  class InMemoryStores {
    var issues: map<string, Issue>
    var comments: seq<Comment>
    var runs: map<string, string>
    var messages: seq<Message>
    const incidents: map<string, string>
    const fold: string -> string

    ghost function View(): Stores
      reads this
    {
      Stores(issues, comments, runs, messages, incidents, fold)
    }

    constructor (issues: map<string, Issue>, incidents: map<string, string>, fold: string -> string)
      ensures View() == Stores(issues, [], map[], [], incidents, fold)
    {
      this.issues, this.incidents, this.fold, comments, runs, messages := issues, incidents, fold, [], map[], [];
    }

    /** The closures the adapters hand to the gateway. */
    method Perform(op: Operation) returns (outcome: Outcome)
      modifies this
      ensures (View(), outcome) == Performed(old(View()), op)
    {
      outcome := Done(SUCCEEDED, {});
      match op {
        case AddComment(key, body) =>
          if key !in issues { return Done(FAILED, {}); }
          comments := comments + [Comment(key, body)];
        case UpdateCaseStatus(key, status) =>
          if key !in issues { return Done(FAILED, {}); }
          var issue := issues[key];
          issues := issues[key := Issue(issue.title, status)];
        case TriggerPipeline(_, commit, runId) =>
          runs := runs[runId := commit];
        case ReadPipelineStatus(run) =>
          if run !in runs { return Done(FAILED, {}); }
          outcome := Done(SUCCEEDED, {runs[run]});
        case SendNotification(channel, text) =>
          messages := messages + [Message(channel, text)];
        case SearchIssues(query) =>
          outcome := Done(SUCCEEDED, set k | k in issues && Matches(fold, query, k, issues[k].title));
        case ReadIncidents(service) =>
          outcome := Done(SUCCEEDED, set k | k in incidents && incidents[k] == service);
        case External(_, _, result) =>
          return result;
      }
    }
  }

  class IntegrationGateway {
    const policy: Policy
    const breaker: CircuitBreaker?
    const stores: InMemoryStores
    var metrics: seq<OperationStatus>
    ghost var ran: seq<bool>

    ghost function View(): World
      reads this, breaker, stores
    {
      World(stores.View(), if breaker == null then None else Some(breaker.View()), metrics, ran)
    }

    constructor (policy: Policy, breaker: CircuitBreaker?, stores: InMemoryStores)
      ensures this.policy == policy && this.breaker == breaker && this.stores == stores
      ensures metrics == [] && ran == []
    {
      this.policy, this.breaker, this.stores, metrics, ran := policy, breaker, stores, [], [];
    }

    /** Guard one adapter operation. */
    method Execute(c: Call) returns (status: OperationStatus, items: set<string>)
      modifies this, breaker, stores
      ensures status == StatusOf(policy, old(View()), c) && items == ItemsOf(policy, old(View()), c)
      ensures View() == After(policy, old(View()), c)
      ensures Serves(policy, Lets(old(View()), c), old(View()).stores, c, status, items, View().stores)
      ensures metrics == old(metrics) + [status]
    {
      CallServes(policy, View(), c);
      status, items := BLOCKED, {};
      if breaker != null {
        var ok := breaker.AllowRequest(c.asked);
        if !ok {
          metrics := metrics + [BLOCKED];
          return;
        }
      }
      if c.payloadBytes > policy.maxPayload {
        metrics := metrics + [BLOCKED];
        return;
      }
      if !PolicyAllows(policy, PermissionOf(c.op), TargetOf(c.op)) {
        metrics := metrics + [BLOCKED];
        return;
      }
      if policy.dryRun && !IsRead(PermissionOf(c.op)) {
        metrics := metrics + [BLOCKED];
        return;
      }
      var outcome := stores.Perform(c.op);
      ran := ran + [outcome.Done?];
      if outcome.Raises? {
        if breaker != null { breaker.RecordFailure(c.recorded); }
        status := FAILED;
      } else {
        if breaker != null { breaker.RecordSuccess(); }
        status := outcome.status;
        if status == SUCCEEDED { items := outcome.items; }
      }
      metrics := metrics + [status];
    }
  }

  // ---------- Runs ----------

  function Serve(policy: Policy, w: World, calls: seq<Call>): World {
    if calls == [] then w else After(policy, Serve(policy, w, calls[..|calls| - 1]), calls[|calls| - 1])
  }

  /** Under a dry run no sequence of calls changes any store, whatever is allow-listed. */
  lemma {:induction false} DryRunChangesNothing(policy: Policy, w: World, calls: seq<Call>)
    requires policy.dryRun
    ensures Serve(policy, w, calls).stores == w.stores
  {
    if calls != [] { DryRunChangesNothing(policy, w, calls[..|calls| - 1]); }
  }

  /** A call that changes a store was live, allow-listed and a write. */
  lemma OnlyAllowedWritesChange(policy: Policy, w: World, c: Call)
    requires After(policy, w, c).stores != w.stores
    ensures !policy.dryRun && PermissionOf(c.op) in policy.permissions && !IsRead(PermissionOf(c.op))
    ensures policy.targets == {} || TargetOf(c.op) in policy.targets
    ensures c.payloadBytes <= policy.maxPayload && StatusOf(policy, w, c) == SUCCEEDED
  {
  }

  /** The breaker was told the outcome of exactly the operations run, in order, and its state
      follows from them. */
  ghost predicate Accounted(w: World) {
    w.breaker.Some? ==> Sound(w.breaker.value) && w.breaker.value.records == w.ran
  }

  lemma StaysAccounted(policy: Policy, w: World, c: Call)
    requires Accounted(w)
    ensures Accounted(After(policy, w, c)) && |After(policy, w, c).metrics| == |w.metrics| + 1
    ensures After(policy, w, c).breaker.Some? <==> w.breaker.Some?
  {
    if w.breaker.Some? {
      StaysSound(w.breaker.value, c.asked);
      StaysSound(Allowed(w.breaker.value, c.asked), c.recorded);
    }
  }

  /** One metric for every call and one record for every operation run. */
  lemma {:induction false} EveryOperationIsRecordedOnce(policy: Policy, w: World, calls: seq<Call>)
    requires Accounted(w)
    ensures Accounted(Serve(policy, w, calls)) && |Serve(policy, w, calls).metrics| == |w.metrics| + |calls|
    ensures Serve(policy, w, calls).breaker.Some? <==> w.breaker.Some?
  {
    if calls != [] {
      var init := calls[..|calls| - 1];
      EveryOperationIsRecordedOnce(policy, w, init);
      StaysAccounted(policy, Serve(policy, w, init), calls[|calls| - 1]);
    }
  }

  // ---------- The breaker can be left waiting for a probe that never ran ----------

  ghost predicate IsWedged(w: World) {
    w.breaker.Some? && Wedged(w.breaker.value)
  }

  /** From then on every call is blocked, at any time and under any policy. */
  lemma {:induction false} WedgedForever(policy: Policy, w: World, calls: seq<Call>)
    requires IsWedged(w)
    ensures
      var after := Serve(policy, w, calls);
      && IsWedged(after) && after.stores == w.stores && after.ran == w.ran
      && |after.metrics| == |w.metrics| + |calls|
      && forall i :: |w.metrics| <= i < |after.metrics| ==> after.metrics[i] == BLOCKED
  {
    if calls != [] { WedgedForever(policy, w, calls[..|calls| - 1]); }
  }

  /** The policy refuses a call that the breaker let through as its probe. */
  ghost predicate WastesProbe(policy: Policy, w: World, c: Call) {
    w.breaker.Some? && Probes(w.breaker.value, c.asked) && Refuses(policy, c)
  }

  lemma WedgedAfterIff(policy: Policy, w: World, c: Call)
    requires Accounted(w)
    ensures IsWedged(After(policy, w, c)) <==> IsWedged(w) || WastesProbe(policy, w, c)
  {
  }

  /** Some call of the run wasted a probe. */
  ghost predicate ProbeWasted(policy: Policy, w: World, calls: seq<Call>) {
    exists i :: 0 <= i < |calls| && WastesProbe(policy, Serve(policy, w, calls[..i]), calls[i])
  }

  lemma {:induction false} WasteOneMore(policy: Policy, w: World, init: seq<Call>, last: Call)
    ensures ProbeWasted(policy, w, init + [last]) <==>
      ProbeWasted(policy, w, init) || WastesProbe(policy, Serve(policy, w, init), last)
  {
    var calls, n := init + [last], |init|;
    assert forall i :: 0 <= i <= n ==> calls[..i] == init[..i];
    assert init[..n] == init && calls[n] == last;
    assert forall i :: 0 <= i < n ==> calls[i] == init[i];
    if ProbeWasted(policy, w, calls) {
      var i :| 0 <= i < |calls| && WastesProbe(policy, Serve(policy, w, calls[..i]), calls[i]);
      assert i == n || WastesProbe(policy, Serve(policy, w, init[..i]), init[i]);
    }
    if ProbeWasted(policy, w, init) {
      var i :| 0 <= i < n && WastesProbe(policy, Serve(policy, w, init[..i]), init[i]);
      assert WastesProbe(policy, Serve(policy, w, calls[..i]), calls[i]);
    }
    if WastesProbe(policy, Serve(policy, w, init), last) {
      assert WastesProbe(policy, Serve(policy, w, calls[..n]), calls[n]);
    }
  }

  /** The gateway is blocked for good exactly when some call wasted a probe. */
  lemma {:induction false} WedgesIff(policy: Policy, w: World, calls: seq<Call>)
    requires Accounted(w) && !IsWedged(w)
    ensures IsWedged(Serve(policy, w, calls)) <==> ProbeWasted(policy, w, calls)
  {
    if calls != [] {
      var init, last := calls[..|calls| - 1], calls[|calls| - 1];
      WedgesIff(policy, w, init);
      EveryOperationIsRecordedOnce(policy, w, init);
      WedgedAfterIff(policy, Serve(policy, w, init), last);
      WasteOneMore(policy, w, init, last);
      assert calls == init + [last];
    }
  }

  // ---------- Which callers can wedge the gateway ----------

  /** A call without its times. */
  datatype Offer = Offer(op: Operation, payloadBytes: nat)

  function OfferOf(c: Call): Offer {
    Offer(c.op, c.payloadBytes)
  }

  ghost predicate MadeFrom(calls: seq<Call>, offers: set<Offer>) {
    forall c <- calls :: OfferOf(c) in offers
  }

  predicate IsRefused(policy: Policy, o: Offer) {
    Refuses(policy, Call(o.op, o.payloadBytes, 0.0, 0.0))
  }

  predicate MayRaise(o: Offer) {
    o.op.External? && o.op.outcome.Raises?
  }

  /** No run of these calls, in any order and number and at any times, wedges a new gateway. */
  ghost predicate NeverWedges(policy: Policy, stores: Stores, threshold: int, recovery: real, offers: set<Offer>) {
    forall calls: seq<Call> :: MadeFrom(calls, offers) ==>
      !IsWedged(Serve(policy, World(stores, Some(Fresh(threshold, recovery)), [], []), calls))
  }

  /** Without a refused call no probe is wasted. */
  lemma {:induction false} UnrefusedNeverWedge(policy: Policy, w: World, calls: seq<Call>)
    requires Accounted(w) && !IsWedged(w) && forall c <- calls :: !Refuses(policy, c)
    ensures !IsWedged(Serve(policy, w, calls))
  {
    WedgesIff(policy, w, calls);
    forall i | 0 <= i < |calls| ensures !WastesProbe(policy, Serve(policy, w, calls[..i]), calls[i]) {
      assert calls[i] in calls;
    }
  }

  /** Without a failure the circuit stays closed. */
  lemma {:induction false} UnraisingStaysClosed(policy: Policy, w: World, calls: seq<Call>)
    requires w.breaker.Some? && w.breaker.value.state == CLOSED
    requires forall c <- calls :: Refuses(policy, c) || !MayRaise(OfferOf(c))
    ensures Serve(policy, w, calls).breaker.Some? && Serve(policy, w, calls).breaker.value.state == CLOSED
  {
    if calls != [] {
      var init, last := calls[..|calls| - 1], calls[|calls| - 1];
      assert last in calls;
      UnraisingStaysClosed(policy, w, init);
    }
  }

  /** `n` failures in a row, up to the threshold. */
  lemma {:induction false} FailuresOpen(policy: Policy, w: World, c: Call, n: nat)
    requires w.breaker.Some? && w.breaker.value == Fresh(w.breaker.value.threshold, w.breaker.value.recovery)
    requires !Refuses(policy, c) && MayRaise(OfferOf(c)) && n <= w.breaker.value.threshold
    ensures
      var b := Serve(policy, w, seq(n, _ => c)).breaker;
      && b.Some? && b.value.failures == n && b.value.threshold == w.breaker.value.threshold
      && b.value.recovery == w.breaker.value.recovery
      && (n < b.value.threshold ==> b.value.state == CLOSED)
      && (n == b.value.threshold > 0 ==> b.value.state == OPEN && b.value.openedAt == Some(c.recorded))
  {
    if n > 0 {
      FailuresOpen(policy, w, c, n - 1);
      var calls := seq(n, _ => c);
      assert calls[..n - 1] == seq(n - 1, _ => c);
    }
  }

  /** A call that raises and one that is refused are enough. */
  lemma RaisingAndRefusedWedge(policy: Policy, w: World, raising: Offer, refused: Offer) returns (calls: seq<Call>)
    requires w.breaker.Some? && w.breaker.value == Fresh(w.breaker.value.threshold, w.breaker.value.recovery)
    requires w.breaker.value.threshold >= 1
    requires !IsRefused(policy, raising) && MayRaise(raising) && IsRefused(policy, refused)
    ensures MadeFrom(calls, {raising, refused}) && IsWedged(Serve(policy, w, calls))
  {
    var b := w.breaker.value;
    var c := Call(raising.op, raising.payloadBytes, 0.0, 0.0);
    var probe := Call(refused.op, refused.payloadBytes, b.recovery, 0.0);
    FailuresOpen(policy, w, c, b.threshold);
    var failing := seq(b.threshold, _ => c);
    calls := failing + [probe];
    assert calls[..|calls| - 1] == failing;
  }

  /** Whatever the times, a new gateway is safe from wedging exactly when its callers offer nothing
      that the policy refuses, or nothing that it lets through and that can raise. */
  lemma NeverWedgesIff(policy: Policy, stores: Stores, threshold: int, recovery: real, offers: set<Offer>)
    requires threshold >= 1 && recovery > 0.0
    ensures NeverWedges(policy, stores, threshold, recovery, offers) <==>
      (forall o <- offers :: !IsRefused(policy, o)) || (forall o <- offers :: IsRefused(policy, o) || !MayRaise(o))
  {
    var w := World(stores, Some(Fresh(threshold, recovery)), [], []);
    if forall o <- offers :: !IsRefused(policy, o) {
      forall calls: seq<Call> | MadeFrom(calls, offers) ensures !IsWedged(Serve(policy, w, calls)) {
        forall c <- calls ensures !Refuses(policy, c) { assert OfferOf(c) in offers; }
        UnrefusedNeverWedge(policy, w, calls);
      }
    } else if forall o <- offers :: IsRefused(policy, o) || !MayRaise(o) {
      forall calls: seq<Call> | MadeFrom(calls, offers) ensures !IsWedged(Serve(policy, w, calls)) {
        forall c <- calls ensures Refuses(policy, c) || !MayRaise(OfferOf(c)) { assert OfferOf(c) in offers; }
        UnraisingStaysClosed(policy, w, calls);
      }
    } else {
      var refused :| refused in offers && IsRefused(policy, refused);
      var raising :| raising in offers && !IsRefused(policy, raising) && MayRaise(raising);
      var calls := RaisingAndRefusedWedge(policy, w, raising, refused);
      assert MadeFrom(calls, offers);
    }
  }

  // ---------- Blocked calls ----------

  predicate Runs(policy: Policy, w: World, c: Call) {
    Lets(w, c) && !Refuses(policy, c)
  }

  /** The calls of a run whose operation ran. */
  function Effective(policy: Policy, w: World, calls: seq<Call>): seq<Call> {
    if calls == [] then [] else
      var init, last := calls[..|calls| - 1], calls[|calls| - 1];
      if Runs(policy, Serve(policy, w, init), last) then Effective(policy, w, init) + [last]
      else Effective(policy, w, init)
  }

  ghost predicate SameButMetrics(a: World, b: World) {
    a.stores == b.stores && a.breaker == b.breaker && a.ran == b.ran
  }

  lemma BlockedCallLeavesNoTrace(policy: Policy, w: World, c: Call)
    requires Accounted(w) && !Runs(policy, w, c) && !WastesProbe(policy, w, c)
    ensures SameButMetrics(After(policy, w, c), w) && StatusOf(policy, w, c) == BLOCKED && ItemsOf(policy, w, c) == {}
  {
  }

  lemma AfterAlike(policy: Policy, a: World, b: World, c: Call)
    requires SameButMetrics(a, b)
    ensures SameButMetrics(After(policy, a, c), After(policy, b, c))
    ensures StatusOf(policy, a, c) == StatusOf(policy, b, c) && ItemsOf(policy, a, c) == ItemsOf(policy, b, c)
  {
  }

  /** Unless one of them wasted a probe, the blocked calls of a run might as well not have been made:
      what ran, the stores and the breaker are the same without them. */
  lemma {:induction false} BlockedCallsAreInvisible(policy: Policy, w: World, calls: seq<Call>)
    requires Accounted(w) && !ProbeWasted(policy, w, calls)
    ensures SameButMetrics(Serve(policy, w, calls), Serve(policy, w, Effective(policy, w, calls)))
    ensures |Serve(policy, w, calls).ran| == |w.ran| + |Effective(policy, w, calls)|
  {
    if calls != [] {
      var init, last := calls[..|calls| - 1], calls[|calls| - 1];
      assert calls == init + [last];
      WasteOneMore(policy, w, init, last);
      BlockedCallsAreInvisible(policy, w, init);
      EveryOperationIsRecordedOnce(policy, w, init);
      var now, only := Serve(policy, w, init), Effective(policy, w, init);
      if Runs(policy, now, last) {
        AfterAlike(policy, now, Serve(policy, w, only), last);
        assert (only + [last])[..|only|] == only;
      } else {
        BlockedCallLeavesNoTrace(policy, now, last);
      }
    }
  }

  /** A read fails, the circuit opens and recovers, a notification is refused by the dry run: from
      here on every call is blocked. */
  lemma DryRunCanWedge() returns (w: World, first: Call, second: Call)
    ensures
      var policy := Policy(true, {READ_ISSUES, READ_REPOSITORY, READ_CI, READ_MONITORING}, {}, 100_000);
      && w.breaker == Some(Fresh(1, 30.0)) && !Refuses(policy, first)
      && StatusOf(policy, w, first) == FAILED
      && IsWedged(After(policy, After(policy, w, first), second))
  {
    var policy := Policy(true, {READ_ISSUES, READ_REPOSITORY, READ_CI, READ_MONITORING}, {}, 100_000);
    w := World(Stores(map[], [], map[], [], map[], (s: string) => s), Some(Fresh(1, 30.0)), [], []);
    first := Call(External(READ_REPOSITORY, "r", Raises), 10, 0.0, 0.0);
    second := Call(SendNotification("c", "m"), 10, 31.0, 31.0);
    var w1 := After(policy, w, first);
    assert w1.breaker.value.state == OPEN && w1.breaker.value.openedAt == Some(0.0);
    assert Probes(w1.breaker.value, 31.0) && Refuses(policy, second);
  }

  /** While the circuit is open and the recovery time has not passed, nothing runs. */
  lemma {:induction false} OpenCircuitBlocks(policy: Policy, w: World, calls: seq<Call>)
    requires w.breaker.Some? && w.breaker.value.state == OPEN && w.breaker.value.openedAt.Some?
    requires forall c <- calls :: c.asked - w.breaker.value.openedAt.value < w.breaker.value.recovery
    ensures Serve(policy, w, calls).stores == w.stores && Serve(policy, w, calls).ran == w.ran
    ensures Serve(policy, w, calls).breaker == w.breaker
  {
    if calls != [] {
      var init, last := calls[..|calls| - 1], calls[|calls| - 1];
      assert last in calls;
      OpenCircuitBlocks(policy, w, init);
    }
  }
}
