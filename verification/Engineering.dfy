/** `ControlledEngineeringExecutor` with the snapshotting local adapter: change one approved file,
    run the tests, put the file back when they fail. */
module Engineering {
  import opened Wrappers
  import opened Control
  import Paths
  import Strings
  import opened TextFiles

  // ---------- The adapter ----------

  /** File contents by full path. Files are text; `write_text` stores a string as it is. */
  type Disk = map<string, string>

  class Workspace {
    var files: Disk

    constructor (files: Disk)
      ensures this.files == files
    {
      this.files := files;
    }
  }

  function Locate(repository: string, file: string): string {
    repository + "/" + file
  }

  class LocalDemoCodeChangeAdapter {
    const targetFile: string
    const oldText: string
    const newText: string
    var snapshot: map<string, string>

    constructor (targetFile: string, oldText: string, newText: string)
      ensures this.targetFile == targetFile && this.oldText == oldText && this.newText == newText && snapshot == map[]
    {
      this.targetFile, this.oldText, this.newText := targetFile, oldText, newText;
      snapshot := map[];
    }

    /** The file as `apply` leaves it. */
    function Patched(raw: string): string {
      ReplaceAll(ReadText(raw), oldText, newText)
    }

    predicate CanApply(files: Disk, repository: string, approved: seq<string>) {
      var target := Locate(repository, targetFile);
      targetFile in approved && target in files && Strings.Contains(ReadText(files[target]), oldText)
    }

    method Apply(ws: Workspace, repository: string, approved: seq<string>) returns (receipt: Receipt)
      modifies ws, this
      ensures var target := Locate(repository, targetFile);
        if CanApply(old(ws.files), repository, approved) then
          && receipt.status == SUCCEEDED
          && ws.files == old(ws.files)[target := Patched(old(ws.files)[target])]
          && snapshot == old(snapshot)[target := ReadText(old(ws.files)[target])]
          && IsPatch(old(ws.files)[target], oldText, newText, ws.files[target])
          && Strings.Contains(ws.files[target], newText)
        else
          receipt.status in {BLOCKED, FAILED} && ws.files == old(ws.files) && snapshot == old(snapshot)
      ensures receipt.operationType == CodeChange
    {
      if targetFile !in approved {
        return Refusal(CodeChange, "Target file is outside the approved path scope");
      }
      var target := Locate(repository, targetFile);
      if target !in ws.files {
        return Refusal(CodeChange, "Target file does not exist");
      }
      var original := ReadText(ws.files[target]);
      if !Strings.Contains(original, oldText) {
        return Receipt(CodeChange, FAILED, None, None, "Expected defective snippet not found");
      }
      PatchHolds(ws.files[target], oldText, newText, Patched(ws.files[target]));
      snapshot := snapshot[target := original];
      ws.files := ws.files[target := ReplaceAll(original, oldText, newText)];
      return Receipt(CodeChange, SUCCEEDED, None, None, "");
    }

    /** The snapshot is consumed whether or not the file is still there. */
    method Rollback(ws: Workspace, repository: string) returns (receipt: Receipt)
      modifies ws, this
      ensures var target := Locate(repository, targetFile);
        && snapshot == old(snapshot) - {target}
        && (receipt.status == SUCCEEDED <==> target in old(snapshot) && target in old(ws.files))
        && ws.files == if receipt.status == SUCCEEDED then old(ws.files)[target := old(snapshot)[target]]
                       else old(ws.files)
      ensures receipt.operationType == CodeChangeRollback
    {
      var target := Locate(repository, targetFile);
      var saved := if target in snapshot then Some(snapshot[target]) else None;
      snapshot := snapshot - {target};
      if saved.None? || target !in ws.files {
        return Refusal(CodeChangeRollback, "No in-memory snapshot exists for this repository.");
      }
      ws.files := ws.files[target := saved.value];
      return Receipt(CodeChangeRollback, SUCCEEDED, None, None, "");
    }
  }

  // ---------- The executor ----------

  datatype EngineeringStatus = VALIDATED | ENGINEERING_BLOCKED | ENGINEERING_FAILED | ENGINEERING_PARTIAL

  datatype EngineeringResult = EngineeringResult(
    status: EngineeringStatus, receipts: seq<Receipt>, changedFiles: seq<string>,
    validationPassed: bool, rollbackAttempted: bool)

  datatype Outcome = Finished(result: EngineeringResult) | Escaped

  /** Grant readings, git's preflight answer, the tests' answer and what they do to the files. */
  datatype Script = Script(readings: nat -> Reading, preflight: Reply, tests: Reply, effect: Disk -> Disk)

  datatype Request = Request(repository: string, ready: bool, approved: seq<string>, rollbackOnFailure: bool)

  predicate ScopeValid(approved: seq<string>) {
    approved != [] && forall a <- approved :: !Paths.LeavesRepository(a)
  }

  /** The change is attempted: plan, scope, preflight and two grant checks allow it. */
  ghost predicate Attempts(req: Request, script: Script) {
    && Granted(IMPLEMENTATION, script.readings(0)) && req.ready && ScopeValid(req.approved)
    && Succeeds(script.preflight) && Granted(IMPLEMENTATION, script.readings(1))
  }

  /** The change is made. */
  ghost predicate Changes(adapter: LocalDemoCodeChangeAdapter, before: Disk, req: Request, script: Script) {
    Attempts(req, script) && adapter.CanApply(before, req.repository, req.approved)
  }

  /** The files when the tests start. */
  ghost function Changed(adapter: LocalDemoCodeChangeAdapter, before: Disk, req: Request): Disk
    requires Locate(req.repository, adapter.targetFile) in before
  {
    var target := Locate(req.repository, adapter.targetFile);
    before[target := adapter.Patched(before[target])]
  }

  /** `changed` is `before` but for the target, in which every defective snippet that it reads as is replaced. */
  ghost predicate IsChanged(adapter: LocalDemoCodeChangeAdapter, before: Disk, req: Request, changed: Disk) {
    var target := Locate(req.repository, adapter.targetFile);
    && target in before && changed.Keys == before.Keys
    && (forall p <- before :: p != target ==> changed[p] == before[p])
    && IsPatch(before[target], adapter.oldText, adapter.newText, changed[target])
    && Strings.Contains(changed[target], adapter.newText)
  }

  /** What the tests start from is the canonical fix. */
  lemma {:induction false} ChangedIsPatched(adapter: LocalDemoCodeChangeAdapter, before: Disk, req: Request,
                                            script: Script)
    requires Changes(adapter, before, req, script)
    ensures IsChanged(adapter, before, req, Changed(adapter, before, req))
  {
    var target := Locate(req.repository, adapter.targetFile);
    var patched := adapter.Patched(before[target]);
    PatchHolds(before[target], adapter.oldText, adapter.newText, patched);
    assert Changed(adapter, before, req) == before[target := patched];
  }

  /** If the change is made, it is that patch. */
  ghost predicate ChangeIsPatch(adapter: LocalDemoCodeChangeAdapter, before: Disk, req: Request, script: Script) {
    Changes(adapter, before, req, script) ==> IsChanged(adapter, before, req, Changed(adapter, before, req))
  }

  lemma ChangesPatch(adapter: LocalDemoCodeChangeAdapter, before: Disk, req: Request, script: Script)
    ensures ChangeIsPatch(adapter, before, req, script)
  {
    if Changes(adapter, before, req, script) { ChangedIsPatched(adapter, before, req, script); }
  }

  /** The files once a failed change has been put back over what the tests left. */
  ghost function PutBack(adapter: LocalDemoCodeChangeAdapter, before: Disk, req: Request, tested: Disk): Disk
    requires Locate(req.repository, adapter.targetFile) in before
  {
    var target := Locate(req.repository, adapter.targetFile);
    if target in tested then tested[target := ReadText(before[target])] else tested
  }

  /** The files and the status at the end of the run, from the surroundings alone. */
  ghost predicate Ends(adapter: LocalDemoCodeChangeAdapter, before: Disk, req: Request, script: Script,
                       outcome: Outcome, after: Disk)
  {
    if !Changes(adapter, before, req, script) then
      after == before && (outcome.Finished? ==>
        outcome.result.status == if Attempts(req, script) then ENGINEERING_FAILED else ENGINEERING_BLOCKED)
    else
      var changed := Changed(adapter, before, req);
      var tested := script.effect(changed);
      if !Granted(IMPLEMENTATION, script.readings(2)) then
        after == changed && EndsWith(outcome, ENGINEERING_PARTIAL)
      else if script.tests.Raised? then
        after == tested && outcome.Escaped?
      else if Succeeds(script.tests) then
        after == tested && EndsWith(outcome, VALIDATED)
      else if req.rollbackOnFailure then
        after == PutBack(adapter, before, req, tested) && EndsWith(outcome, ENGINEERING_FAILED)
      else
        after == tested && EndsWith(outcome, ENGINEERING_PARTIAL)
  }

  predicate EndsWith(outcome: Outcome, status: EngineeringStatus) {
    outcome.Finished? && outcome.result.status == status
  }

  /** The run reached the rollback. */
  ghost predicate RollsBack(adapter: LocalDemoCodeChangeAdapter, before: Disk, req: Request, script: Script) {
    && Changes(adapter, before, req, script) && Granted(IMPLEMENTATION, script.readings(2))
    && script.tests.Returned? && !Succeeds(script.tests) && req.rollbackOnFailure
  }

  /** A receipt that came from git or from the tests, labelled as they saw fit. */
  predicate FromAdapter(script: Script, r: Receipt) {
    script.preflight == Returned(r) || script.tests == Returned(r)
  }

  predicate IsRefusal(r: Receipt, t: OperationType) {
    r.operationType == t && r.status == BLOCKED
  }

  /** The receipts of a run, one for each thing that was done or refused, in order. */
  ghost predicate Documents(adapter: LocalDemoCodeChangeAdapter, before: Disk, req: Request, script: Script,
                            receipts: seq<Receipt>) {
    && receipts != []
    && if !Granted(IMPLEMENTATION, script.readings(0)) then
         |receipts| == 1 && IsRefusal(receipts[0], ImplementationAuthorization)
       else if !req.ready then |receipts| == 1 && IsRefusal(receipts[0], ImplementationPlan)
       else if !ScopeValid(req.approved) then |receipts| == 1 && IsRefusal(receipts[0], ImplementationScope)
       else
         && script.preflight == Returned(receipts[0])
         && if !Succeeds(script.preflight) then |receipts| == 1
            else if !Granted(IMPLEMENTATION, script.readings(1)) then
              |receipts| == 2 && IsRefusal(receipts[1], ImplementationAuthorization)
            else DocumentsChange(adapter, before, req, script, receipts)
  }

  /** The receipts after the preflight's: the change's, then the refusal or the tests', then the rollback's. */
  ghost predicate DocumentsChange(adapter: LocalDemoCodeChangeAdapter, before: Disk, req: Request, script: Script,
                                  receipts: seq<Receipt>) {
    && |receipts| >= 2 && receipts[1].operationType == CodeChange
    && (receipts[1].status == SUCCEEDED <==> Changes(adapter, before, req, script))
    && if !Changes(adapter, before, req, script) then |receipts| == 2
       else if !Granted(IMPLEMENTATION, script.readings(2)) then
         |receipts| == 3 && IsRefusal(receipts[2], ImplementationAuthorization)
       else
         && |receipts| == (if RollsBack(adapter, before, req, script) then 4 else 3)
         && script.tests == Returned(receipts[2])
         && (RollsBack(adapter, before, req, script) ==>
               receipts[3].operationType == CodeChangeRollback
               && (receipts[3].status == SUCCEEDED <==>
                     Locate(req.repository, adapter.targetFile) in script.effect(Changed(adapter, before, req))))
  }

  /** The result says what happened. */
  ghost predicate Reports(adapter: LocalDemoCodeChangeAdapter, before: Disk, req: Request, script: Script,
                          r: EngineeringResult) {
    && r.validationPassed == (r.status == VALIDATED)
    && r.changedFiles == (if Changes(adapter, before, req, script) then req.approved else [])
    && (r.rollbackAttempted <==> RollsBack(adapter, before, req, script))
    && Documents(adapter, before, req, script, r.receipts)
  }

  /** A receipt is an adapter's, or one of the executor's own, which never claims a commit and
      claims a change only when there was one; no step succeeds before the first grant check. */
  lemma ReceiptsAreHonest(adapter: LocalDemoCodeChangeAdapter, before: Disk, req: Request, script: Script,
                          receipts: seq<Receipt>, r: Receipt)
    requires Documents(adapter, before, req, script, receipts) && r in receipts
    ensures || FromAdapter(script, r)
            || (r.operationType != GitCommit
                && (r.operationType == CodeChange && r.status == SUCCEEDED ==> Changes(adapter, before, req, script)))
    ensures r.status == SUCCEEDED ==> Granted(IMPLEMENTATION, script.readings(0))
  {
    var i :| 0 <= i < |receipts| && receipts[i] == r;
    assert i == 0 || i == 1 || i == 2 || i == 3;
  }

  method Execute(adapter: LocalDemoCodeChangeAdapter, ws: Workspace, req: Request, script: Script)
    returns (outcome: Outcome)
    modifies adapter, ws
    ensures Ends(adapter, old(ws.files), req, script, outcome, ws.files)
    ensures outcome.Finished? ==> Reports(adapter, old(ws.files), req, script, outcome.result)
    ensures ChangeIsPatch(adapter, old(ws.files), req, script)
  {
    ChangesPatch(adapter, ws.files, req, script);
    var grant := FindGrant(IMPLEMENTATION, script.readings(0));
    if grant.None? {
      return Blocked(ImplementationAuthorization);
    }
    if !req.ready {
      return Blocked(ImplementationPlan);
    }
    if req.approved == [] || exists a <- req.approved :: Paths.LeavesRepository(a) {
      return Blocked(ImplementationScope);
    }
    if script.preflight.Raised? {
      return Escaped;
    }
    var receipts := [script.preflight.receipt];
    if script.preflight.receipt.status != SUCCEEDED {
      return Finished(EngineeringResult(ENGINEERING_BLOCKED, receipts, [], false, false));
    }
    grant := FindGrant(IMPLEMENTATION, script.readings(1));
    if grant.None? {
      receipts := receipts
        + [Refusal(ImplementationAuthorization, "Implementation authorization is missing or expired.")];
      return Finished(EngineeringResult(ENGINEERING_BLOCKED, receipts, [], false, false));
    }
    var change := adapter.Apply(ws, req.repository, req.approved);
    receipts := receipts + [change];
    if change.status != SUCCEEDED {
      return Finished(EngineeringResult(ENGINEERING_FAILED, receipts, [], false, false));
    }
    outcome := TestAndSettle(adapter, ws, req, script, receipts, old(ws.files));
  }

  /** The rest of `execute`, once the change is made: check the grant, run the tests, roll back. */
  method TestAndSettle(adapter: LocalDemoCodeChangeAdapter, ws: Workspace, req: Request, script: Script,
                       done: seq<Receipt>, ghost before: Disk)
    returns (outcome: Outcome)
    requires Changes(adapter, before, req, script) && ws.files == Changed(adapter, before, req)
    requires
      var target := Locate(req.repository, adapter.targetFile);
      target in adapter.snapshot && adapter.snapshot[target] == ReadText(before[target])
    requires |done| == 2 && script.preflight == Returned(done[0])
    requires done[1].operationType == CodeChange && done[1].status == SUCCEEDED
    modifies adapter, ws
    ensures Ends(adapter, before, req, script, outcome, ws.files)
    ensures outcome.Finished? ==> Reports(adapter, before, req, script, outcome.result)
  {
    var receipts := done;
    var grant := FindGrant(IMPLEMENTATION, script.readings(2));
    if grant.None? {
      receipts := receipts
        + [Refusal(ImplementationAuthorization, "Implementation authorization is missing or expired.")];
      return Finished(EngineeringResult(ENGINEERING_PARTIAL, receipts, req.approved, false, false));
    }
    ws.files := script.effect(ws.files);
    if script.tests.Raised? {
      return Escaped;
    }
    receipts := receipts + [script.tests.receipt];
    if script.tests.receipt.status == SUCCEEDED {
      return Finished(EngineeringResult(VALIDATED, receipts, req.approved, true, false));
    }
    if req.rollbackOnFailure {
      var rollback := adapter.Rollback(ws, req.repository);
      receipts := receipts + [rollback];
      return Finished(EngineeringResult(ENGINEERING_FAILED, receipts, req.approved, false, true));
    }
    return Finished(EngineeringResult(ENGINEERING_PARTIAL, receipts, req.approved, false, false));
  }

  function Blocked(t: OperationType): Outcome {
    Finished(EngineeringResult(ENGINEERING_BLOCKED, [Refusal(t, "")], [], false, false))
  }

  // ---------- What a run leaves behind ----------

  /** Two disks agree on every path but one. */
  ghost predicate AgreeExcept(a: Disk, b: Disk, path: string) {
    a - {path} == b - {path}
  }

  /** The tests behave: they touch no file but the target, and do not delete that. */
  ghost predicate TestsKeepToTarget(adapter: LocalDemoCodeChangeAdapter, before: Disk, req: Request, script: Script)
    requires Locate(req.repository, adapter.targetFile) in before
  {
    var target := Locate(req.repository, adapter.targetFile);
    var changed := Changed(adapter, before, req);
    target in script.effect(changed) && AgreeExcept(script.effect(changed), before, target)
  }

  /** What must hold for the change to be made, written out: the grant at both checks, a ready plan, a scope inside
      the repository that names the target, a clean preflight, and the defective snippet in the file. */
  ghost predicate MayChange(adapter: LocalDemoCodeChangeAdapter, before: Disk, req: Request, script: Script) {
    var target := Locate(req.repository, adapter.targetFile);
    && Granted(IMPLEMENTATION, script.readings(0)) && Granted(IMPLEMENTATION, script.readings(1))
    && req.ready && adapter.targetFile in req.approved
    && (forall a <- req.approved :: !(a != "" && a[0] == '/') && ".." !in Paths.Split(a))
    && script.preflight.Returned? && script.preflight.receipt.status == SUCCEEDED
    && target in before && exists text :: ReadsAs(before[target], text) && Strings.Contains(text, adapter.oldText)
  }

  lemma HoldsSnippetIff(raw: string, snippet: string)
    ensures (exists text :: ReadsAs(raw, text) && Strings.Contains(text, snippet)) <==>
            Strings.Contains(ReadText(raw), snippet)
  {
    ReadsAsIff(raw, ReadText(raw));
    if text :| ReadsAs(raw, text) && Strings.Contains(text, snippet) { ReadsAsIff(raw, text); }
  }

  /** The change is made exactly when it may be. */
  lemma MayChangeIff(adapter: LocalDemoCodeChangeAdapter, before: Disk, req: Request, script: Script)
    ensures MayChange(adapter, before, req, script) <==> Changes(adapter, before, req, script)
  {
    var target := Locate(req.repository, adapter.targetFile);
    if target in before { HoldsSnippetIff(before[target], adapter.oldText); }
  }

  /** A run changes a file only when it may, ends VALIDATED exactly when it may, still has the grant and the tests
      pass, and then the files are as the tests left the fixed file. */
  lemma {:induction false} ValidatedIff(adapter: LocalDemoCodeChangeAdapter, before: Disk, req: Request,
                                        script: Script, outcome: Outcome, after: Disk)
    requires Ends(adapter, before, req, script, outcome, after)
    ensures after != before ==> MayChange(adapter, before, req, script)
    ensures EndsWith(outcome, VALIDATED) <==>
            && MayChange(adapter, before, req, script) && Granted(IMPLEMENTATION, script.readings(2))
            && script.tests.Returned? && script.tests.receipt.status == SUCCEEDED
    ensures EndsWith(outcome, VALIDATED) ==>
      exists changed :: IsChanged(adapter, before, req, changed) && after == script.effect(changed)
  {
    MayChangeIff(adapter, before, req, script);
    if Changes(adapter, before, req, script) { ChangedIsPatched(adapter, before, req, script); }
  }

  /** A run that ends BLOCKED never changed anything. */
  lemma BlockedLeavesFilesAlone(adapter: LocalDemoCodeChangeAdapter, before: Disk, req: Request, script: Script,
                                outcome: Outcome, after: Disk)
    requires Ends(adapter, before, req, script, outcome, after) && outcome.Finished?
    requires outcome.result.status == ENGINEERING_BLOCKED
    ensures after == before
  {
  }

  /** A run that ends FAILED leaves every file as it was - if it never made the change; and if it
      did, exactly when the tests kept to the target file, did not delete it, and the file had no
      carriage returns for the text-mode snapshot to lose. */
  lemma FailedRestoresIff(adapter: LocalDemoCodeChangeAdapter, before: Disk, req: Request, script: Script,
                          outcome: Outcome, after: Disk)
    requires Ends(adapter, before, req, script, outcome, after) && outcome.Finished?
    requires outcome.result.status == ENGINEERING_FAILED
    ensures after == before <==>
      (Changes(adapter, before, req, script) ==>
        && TestsKeepToTarget(adapter, before, req, script)
        && '\r' !in before[Locate(req.repository, adapter.targetFile)])
  {
    if Changes(adapter, before, req, script) {
      var target := Locate(req.repository, adapter.targetFile);
      var tested := script.effect(Changed(adapter, before, req));
      ReadTextIsExactIffNoReturn(before[target]);
      assert after == PutBack(adapter, before, req, tested);
      if target in tested {
        assert after - {target} == tested - {target};
        if after == before { assert after[target] == before[target]; }
        if AgreeExcept(tested, before, target) && '\r' !in before[target] {
          forall p ensures p in after <==> p in before {
            assert p == target || (p in after <==> p in after - {target});
            assert p == target || (p in before <==> p in before - {target});
          }
          forall p | p in before ensures after[p] == before[p] {
            if p != target { assert (after - {target})[p] == (before - {target})[p]; }
          }
        }
      }
    }
  }

  /** Every adapter has, for every file with a carriage return that it can change, a run whose
      rollback reports success and leaves another text. */
  lemma CarriageReturnIsLost(adapter: LocalDemoCodeChangeAdapter, raw: string)
    returns (before: Disk, req: Request, script: Script, outcome: Outcome, after: Disk)
    requires '\r' in raw && Strings.Contains(ReadText(raw), adapter.oldText)
    requires !Paths.LeavesRepository(adapter.targetFile)
    ensures RollsBack(adapter, before, req, script) && Ends(adapter, before, req, script, outcome, after)
    ensures outcome.Finished? && Reports(adapter, before, req, script, outcome.result)
    ensures |outcome.result.receipts| == 4 && outcome.result.receipts[3].status == SUCCEEDED
    ensures before == map[Locate(req.repository, adapter.targetFile) := raw]
    ensures after == map[Locate(req.repository, adapter.targetFile) := ReadText(raw)] && after != before
  {
    var target := Locate("r", adapter.targetFile);
    var reading := Reading("run", [Grant("run", IMPLEMENTATION, None, true)], 0);
    assert Covers(reading.grants[0], IMPLEMENTATION, reading);
    var clean := Receipt(GitPreflight, SUCCEEDED, None, None, "");
    var failed := clean.(status := FAILED);
    before, req := map[target := raw], Request("r", true, [adapter.targetFile], true);
    script := Script(_ => reading, Returned(clean), Returned(failed), (d: Disk) => d);
    var change := Receipt(CodeChange, SUCCEEDED, None, None, "");
    var rollback := change.(operationType := CodeChangeRollback);
    outcome := Finished(EngineeringResult(
      ENGINEERING_FAILED, [clean, change, failed, rollback], req.approved, false, true));
    after := PutBack(adapter, before, req, Changed(adapter, before, req));
    ReadTextIsExactIffNoReturn(raw);
    assert after[target] != before[target];
  }

  /** A run that ends VALIDATED or PARTIAL made the change, to a target that was approved and lies
      inside the repository. It left every other file as it was exactly when the tests did, or lost
      the grant before they were run. */
  lemma OnlyTargetChanges(adapter: LocalDemoCodeChangeAdapter, before: Disk, req: Request, script: Script,
                          outcome: Outcome, after: Disk)
    requires Ends(adapter, before, req, script, outcome, after) && outcome.Finished?
    requires outcome.result.status == VALIDATED || outcome.result.status == ENGINEERING_PARTIAL
    ensures Changes(adapter, before, req, script)
    ensures adapter.targetFile in req.approved && !Paths.LeavesRepository(adapter.targetFile)
    ensures
      var target := Locate(req.repository, adapter.targetFile);
      && (AgreeExcept(after, before, target) <==>
          (Granted(IMPLEMENTATION, script.readings(2)) ==>
             AgreeExcept(script.effect(Changed(adapter, before, req)), before, target)))
  {
    var target := Locate(req.repository, adapter.targetFile);
    assert AgreeExcept(Changed(adapter, before, req), before, target);
  }
}
