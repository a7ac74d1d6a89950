/** A pass of one prefixed pattern: leftmost, non-overlapping matches with their values masked. */
module PrefixPass {
  import opened Wrappers
  import opened Patterns
  import opened SecretPatterns
  import opened RewritePass

  /** A match is under way in `s`: `hold` more prefix characters, then its value. */
  predicate Pending(hold: Option<nat>, s: string) {
    hold.Some? ==> hold.value < |s| && IsValue(s[hold.value])
  }

  /** `re.subn` for `(p)[^\s,]+`, one edit at a time. `hold` is None between matches. */
  function ScanEdits(p: Prefix, hold: Option<nat>, s: string): seq<Edit>
    requires Pending(hold, s)
    decreases |s|, if hold.None? then 1 else 0
  {
    if s == "" then [] else
    match hold
    case Some(k) =>
      if k == 0 then [Mask(Run(s))] + ScanEdits(p, None, s[Run(s)..])
      else [Keep] + ScanEdits(p, Some(k - 1), s[1..])
    case None =>
      if PrefixEnd(p, s).None? then [Keep] + ScanEdits(p, None, s[1..])
      else PrefixEndSound(p, s); ScanEdits(p, PrefixEnd(p, s), s)
  }

  function Scan(p: Prefix, s: string): seq<Edit> {
    ScanEdits(p, None, s)
  }

  lemma {:induction false} ScanFits(p: Prefix, hold: Option<nat>, s: string)
    requires Pending(hold, s)
    ensures Fits(s, ScanEdits(p, hold, s))
    decreases |s|, if hold.None? then 1 else 0
  {
    if s != "" {
      var ops := ScanEdits(p, hold, s);
      if hold == Some(0) {
        ScanFits(p, None, s[Run(s)..]);
        assert ops[1..] == ScanEdits(p, None, s[Run(s)..]);
      } else if hold.Some? {
        ScanFits(p, Some(hold.value - 1), s[1..]);
        assert ops[1..] == ScanEdits(p, Some(hold.value - 1), s[1..]);
      } else if PrefixEnd(p, s).Some? {
        PrefixEndSound(p, s);
        ScanFits(p, PrefixEnd(p, s), s);
      } else {
        ScanFits(p, None, s[1..]);
        assert ops[1..] == ScanEdits(p, None, s[1..]);
      }
    }
  }

  // ---------- A pass respects masks and keeps clean what is clean ----------

  /** Scripts that mask maximal value runs, each right after a break; `after`: a break precedes. */
  predicate MasksRuns(after: bool, s: string, ops: seq<Edit>)
    requires Fits(s, ops)
    decreases |ops|
  {
    if ops == [] then true else
    match ops[0]
    case Keep => MasksRuns(IsBreak(s[0]), s[1..], ops[1..])
    case Mask(n) => after && n == Run(s) && MasksRuns(false, s[n..], ops[1..])
  }

  /** A prefix of WellFormed shape is never empty, and ends in a break. */
  lemma PrefixShape(p: Prefix, s: string)
    requires WellFormed(p) && PrefixEnd(p, s).Some?
    ensures var e := PrefixEnd(p, s).value; e >= 2 && IsBreak(s[e - 1]) && Spells(p[1..][1..], s[2..e])
  {
    var e := PrefixEnd(p, s).value;
    PrefixEndSound(p, s);
    SpelledEndsInBreak(p, s[..e]);
    assert s[..e][1..][1..] == s[2..e];
  }

  lemma {:induction false} ScanMasksRuns(after: bool, p: Prefix, hold: Option<nat>, s: string)
    requires WellFormed(p) && Pending(hold, s)
    requires hold.Some? ==> if hold.value == 0 then after else IsBreak(s[hold.value - 1])
    ensures Fits(s, ScanEdits(p, hold, s)) && MasksRuns(after, s, ScanEdits(p, hold, s))
    decreases |s|, if hold.None? then 1 else 0
  {
    ScanFits(p, hold, s);
    if s != "" {
      var ops := ScanEdits(p, hold, s);
      if hold == Some(0) {
        ScanMasksRuns(false, p, None, s[Run(s)..]);
        assert ops[1..] == ScanEdits(p, None, s[Run(s)..]);
      } else if hold.Some? {
        ScanMasksRuns(IsBreak(s[0]), p, Some(hold.value - 1), s[1..]);
        assert ops[1..] == ScanEdits(p, Some(hold.value - 1), s[1..]);
      } else if PrefixEnd(p, s).Some? {
        PrefixEndSound(p, s);
        PrefixShape(p, s);
        ScanMasksRuns(after, p, PrefixEnd(p, s), s);
      } else {
        ScanMasksRuns(IsBreak(s[0]), p, None, s[1..]);
        assert ops[1..] == ScanEdits(p, None, s[1..]);
      }
    }
  }

  lemma {:induction false} KeptUntilBreak(after: bool, s: string, ops: seq<Edit>, k: nat)
    requires Fits(s, ops) && MasksRuns(after, s, ops) && k <= |s| && (ops != [] ==> ops[0].Keep?)
    requires forall i :: 0 <= i < k - 1 ==> !IsBreak(s[i])
    ensures AllKeep(ops, k)
    decreases k
  {
    if k > 1 {
      KeptUntilBreak(false, s[1..], ops[1..], k - 1);
      assert forall i :: 1 <= i < k ==> ops[i] == ops[1..][i - 1];
    }
  }

  lemma MaskKept(after: bool, s: string, ops: seq<Edit>)
    requires Fits(s, ops) && MasksRuns(after, s, ops) && MASK <= s && ops != [] && ops[0].Keep?
    ensures AllKeep(ops, |MASK|)
  {
    var m := MASK;
    forall i | 0 <= i < |m| - 1 ensures !IsBreak(s[i]) { MaskLetters(m, i); }
    KeptUntilBreak(after, s, ops, |m|);
  }

  lemma {:induction false} RunsAreLegal(after: bool, s: string, ops: seq<Edit>)
    requires Fits(s, ops) && MasksRuns(after, s, ops)
    ensures Legal(s, ops)
    decreases |ops|
  {
    if ops != [] {
      if ops[0].Keep? {
        RunsAreLegal(IsBreak(s[0]), s[1..], ops[1..]);
        if MASK <= s { MaskKept(after, s, ops); }
      } else {
        RunsAreLegal(false, s[ops[0].n..], ops[1..]);
      }
    }
  }

  lemma {:induction false} RunAtMask(after: bool, s: string, ops: seq<Edit>, e: nat)
    requires Fits(s, ops) && MasksRuns(after, s, ops) && AllKeep(ops, e) && e < |ops| && ops[e].Mask?
    ensures e < |s| && ops[e].n == Run(s[e..])
    decreases e
  {
    if e > 0 {
      assert forall i :: 0 <= i < e - 1 ==> ops[1..][i] == ops[i + 1];
      RunAtMask(IsBreak(s[0]), s[1..], ops[1..], e - 1);
      assert s[1..][e - 1..] == s[e..];
    } else {
      assert s[0..] == s;
    }
  }

  lemma CleanHereIsGuarded(q: Prefix, after: bool, s: string, ops: seq<Edit>)
    requires Fits(s, ops) && MasksRuns(after, s, ops) && Clean(q, s)
    ensures GuardedHere(q, s, ops)
  {
    if PrefixEnd(q, s).Some? {
      var e := PrefixEnd(q, s).value;
      if AllKeep(ops, e) && e < |ops| && ops[e].Mask? { RunAtMask(after, s, ops, e); }
    }
  }

  lemma {:induction false} CleanIsGuarded(q: Prefix, after: bool, s: string, ops: seq<Edit>)
    requires Fits(s, ops) && MasksRuns(after, s, ops) && Clean(q, s)
    ensures Guarded(q, s, ops)
    decreases |ops|
  {
    if ops != [] {
      if ops[0].Keep? {
        CleanTail(q, s, 1);
        CleanIsGuarded(q, IsBreak(s[0]), s[1..], ops[1..]);
        CleanHereIsGuarded(q, after, s, ops);
      } else {
        CleanTail(q, s, ops[0].n);
        CleanIsGuarded(q, false, s[ops[0].n..], ops[1..]);
      }
    }
  }

  // ---------- A pass masks every match of its own pattern ----------

  /** No match begins strictly inside the prefix of another. */
  lemma NoOverlap(p: Prefix, s: string, k: nat)
    requires WellFormed(p) && PrefixEnd(p, s).Some? && 1 <= k < PrefixEnd(p, s).value
    ensures PrefixEnd(p, s[k..]) == None
  {
    var e := PrefixEnd(p, s).value;
    PrefixShape(p, s);
    if PrefixEnd(p, s[k..]).Some? {
      assert In(s[k], p[0].cls);
      assert PrefixEnd(p[1..], s[k..][1..]).Some?;
      assert In(s[k..][1..][0], p[1..][0].cls);
      if k + 1 < e {
        assert s[2..e][k - 1] == s[k + 1];
        assert p[1..][1..] == p[2..];
        SpelledAvoids(p[2..], s[2..e], p[1].cls, k - 1);
      }
    }
  }

  lemma {:induction false} HoldReaches(p: Prefix, k: nat, s: string)
    requires Pending(Some(k), s)
    ensures var ops := ScanEdits(p, Some(k), s); AllKeep(ops, k) && k < |ops| && ops[k] == Mask(Run(s[k..]))
    decreases k
  {
    var ops := ScanEdits(p, Some(k), s);
    if k > 0 {
      HoldReaches(p, k - 1, s[1..]);
      assert ops[1..] == ScanEdits(p, Some(k - 1), s[1..]);
      assert forall i :: 1 <= i <= k ==> ops[i] == ops[1..][i - 1];
      assert s[1..][k - 1..] == s[k..];
    } else {
      assert s[0..] == s;
    }
  }

  ghost predicate Unmatched(p: Prefix, from: nat, to: nat, s: string) {
    forall i :: from <= i < to && i <= |s| ==> PrefixEnd(p, s[i..]).None?
  }

  lemma UnmatchedTail(p: Prefix, from: nat, to: nat, s: string)
    requires s != "" && 0 < to && Unmatched(p, from, to, s)
    ensures Unmatched(p, if from == 0 then 0 else from - 1, to - 1, s[1..])
  {
    forall i | (if from == 0 then 0 else from - 1) <= i < to - 1 && i <= |s[1..]|
      ensures PrefixEnd(p, s[1..][i..]).None?
    {
      assert s[1..][i..] == s[i + 1..];
    }
  }

  /** `start`: the position before `s` is not inside a prefix, so a match may begin right here. */
  lemma {:induction false} ScanGuards(p: Prefix, hold: Option<nat>, s: string, start: bool)
    requires WellFormed(p) && Pending(hold, s)
    requires hold.Some? ==> if start then hold == PrefixEnd(p, s) else Unmatched(p, 0, hold.value, s)
    ensures Fits(s, ScanEdits(p, hold, s)) && Guarded(p, s, ScanEdits(p, hold, s))
    decreases |s|, if hold.None? then 1 else 0
  {
    ScanFits(p, hold, s);
    if s != "" {
      var ops := ScanEdits(p, hold, s);
      if hold == Some(0) {
        ScanGuards(p, None, s[Run(s)..], true);
        assert ops[1..] == ScanEdits(p, None, s[Run(s)..]);
      } else if hold.Some? {
        var k := hold.value;
        if start {
          forall i | 1 <= i < k && i <= |s| ensures PrefixEnd(p, s[i..]).None? { NoOverlap(p, s, i); }
          HoldReaches(p, k, s);
        } else {
          assert s[0..] == s;
        }
        assert Unmatched(p, 1, k, s);
        UnmatchedTail(p, 1, k, s);
        ScanGuards(p, Some(k - 1), s[1..], false);
        assert ops[1..] == ScanEdits(p, Some(k - 1), s[1..]);
      } else if PrefixEnd(p, s).Some? {
        PrefixEndSound(p, s);
        ScanGuards(p, PrefixEnd(p, s), s, true);
      } else {
        ScanGuards(p, None, s[1..], true);
        assert ops[1..] == ScanEdits(p, None, s[1..]);
      }
    }
  }

  /** A prefixed pass makes the text clean for its own pattern and keeps it clean for any other. */
  lemma ScanCleans(p: Prefix, q: Prefix, s: string)
    requires WellFormed(p) && WellFormed(q) && (q == p || Clean(q, s))
    ensures Fits(s, Scan(p, s)) && Clean(q, Apply(s, Scan(p, s)))
  {
    ScanMasksRuns(false, p, None, s);
    RunsAreLegal(false, s, Scan(p, s));
    if q == p { ScanGuards(p, None, s, true); } else { CleanIsGuarded(q, false, s, Scan(p, s)); }
    PassCleans(q, s, Scan(p, s));
  }

  // ---------- What a pass masks, and what it leaves alone ----------

  ghost predicate Occurs(p: Prefix, s: string) {
    exists i :: 0 <= i <= |s| && PrefixEnd(p, s[i..]).Some?
  }

  lemma {:induction false} OccursStep(p: Prefix, s: string)
    requires s != ""
    ensures Occurs(p, s) <==> PrefixEnd(p, s).Some? || Occurs(p, s[1..])
  {
    assert s[0..] == s;
    if Occurs(p, s) {
      var i :| 0 <= i <= |s| && PrefixEnd(p, s[i..]).Some?;
      if i > 0 { assert s[1..][i - 1..] == s[i..]; }
    }
    if Occurs(p, s[1..]) {
      var i :| 0 <= i <= |s[1..]| && PrefixEnd(p, s[1..][i..]).Some?;
      assert s[1..][i..] == s[i + 1..];
    }
  }

  /** The match of `p` that begins at `k` has its value begin at `at`. */
  ghost predicate PrefixSpans(p: Prefix, s: string, k: nat, at: nat)
    requires k <= at <= |s|
  {
    PrefixEnd(p, s[k..]) == Some(at - k)
  }

  /** The value of some match of `p` begins at `at`. */
  ghost predicate ValueStartsAt(p: Prefix, s: string, at: nat)
    requires at <= |s|
  {
    exists k :: 0 <= k <= at && PrefixSpans(p, s, k, at)
  }

  /** Every run that `ops`, applied to `s` from `at` on, masks is the value of a match of `p`. */
  ghost predicate MasksOnlyValues(p: Prefix, s: string, at: nat, ops: seq<Edit>)
    requires at <= |s|
    decreases |ops|
  {
    if ops == [] then true else
    match ops[0]
    case Keep => at < |s| && MasksOnlyValues(p, s, at + 1, ops[1..])
    case Mask(n) => ValueStartsAt(p, s, at) && n == Run(s[at..]) && MasksOnlyValues(p, s, at + n, ops[1..])
  }

  /** Nothing but the values of matches is masked; `t` is the rest of `s` from `at` on, and `v` is
      where the value of the pending match begins. */
  lemma {:induction false} ScanMasksOnlyValues(p: Prefix, hold: Option<nat>, s: string, at: nat, t: string, v: nat)
    requires at <= |s| && t == s[at..] && Pending(hold, t)
    requires hold.Some? ==> v == at + hold.value && ValueStartsAt(p, s, v)
    ensures MasksOnlyValues(p, s, at, ScanEdits(p, hold, t))
    decreases |t|, if hold.None? then 1 else 0
  {
    if t != "" {
      var ops := ScanEdits(p, hold, t);
      if hold == Some(0) {
        var n := Run(t);
        ScanMasksOnlyValues(p, None, s, at + n, t[n..], v);
        assert ops[1..] == ScanEdits(p, None, t[n..]);
      } else if hold.Some? {
        ScanMasksOnlyValues(p, Some(hold.value - 1), s, at + 1, t[1..], v);
        assert ops[1..] == ScanEdits(p, Some(hold.value - 1), t[1..]);
      } else if PrefixEnd(p, t).Some? {
        var v' := at + PrefixEnd(p, t).value;
        PrefixEndSound(p, t);
        assert PrefixSpans(p, s, at, v');
        ScanMasksOnlyValues(p, PrefixEnd(p, t), s, at, t, v');
      } else {
        ScanMasksOnlyValues(p, None, s, at + 1, t[1..], v);
        assert ops[1..] == ScanEdits(p, None, t[1..]);
      }
    }
  }

  ghost predicate MasksSome(ops: seq<Edit>) {
    exists j :: 0 <= j < |ops| && ops[j].Mask?
  }

  lemma MasksSomeStep(ops: seq<Edit>)
    requires ops != []
    ensures MasksSome(ops) <==> ops[0].Mask? || MasksSome(ops[1..])
  {
    if MasksSome(ops) {
      var j :| 0 <= j < |ops| && ops[j].Mask?;
      if j > 0 { assert ops[1..][j - 1].Mask?; }
    }
    if MasksSome(ops[1..]) {
      var j :| 0 <= j < |ops[1..]| && ops[1..][j].Mask?;
      assert ops[j + 1].Mask?;
    }
  }

  /** The pass replaces something exactly when the pattern occurs somewhere. */
  lemma {:induction false} MasksIffOccurs(p: Prefix, s: string)
    ensures MasksSome(Scan(p, s)) <==> Occurs(p, s)
    decreases |s|
  {
    var ops := Scan(p, s);
    if s == "" {
      assert forall i :: 0 <= i <= |s| ==> s[i..] == "";
    } else if PrefixEnd(p, s).None? {
      MasksIffOccurs(p, s[1..]);
      assert ops[1..] == Scan(p, s[1..]);
      MasksSomeStep(ops);
      OccursStep(p, s);
    } else {
      PrefixEndSound(p, s);
      HoldReaches(p, PrefixEnd(p, s).value, s);
      OccursStep(p, s);
    }
  }

  /** A script without masks copies the text. */
  lemma {:induction false} NoMasksCopies(s: string, ops: seq<Edit>)
    requires Fits(s, ops) && !MasksSome(ops)
    ensures Apply(s, ops) == s
  {
    assert AllKeep(ops, |ops|);
    KeepCopies(s, ops, |ops|);
  }

  /** Every value masked is the mask already. */
  ghost predicate MasksMasked(u: string, ops: seq<Edit>)
    requires Fits(u, ops)
    decreases |ops|
  {
    if ops == [] then true else
    match ops[0]
    case Keep => MasksMasked(u[1..], ops[1..])
    case Mask(n) => n == Run(u) && IsMasked(u) && MasksMasked(u[n..], ops[1..])
  }

  lemma {:induction false} MaskingMaskedIsFixed(u: string, ops: seq<Edit>)
    requires Fits(u, ops) && MasksMasked(u, ops)
    ensures Apply(u, ops) == u
    decreases |ops|
  {
    if ops != [] {
      if ops[0].Keep? {
        MaskingMaskedIsFixed(u[1..], ops[1..]);
      } else {
        MaskingMaskedIsFixed(u[ops[0].n..], ops[1..]);
        MaskedIsCut(u);
      }
    }
  }

  lemma CleanValue(p: Prefix, s: string, at: nat)
    requires Clean(p, s) && at <= |s| && ValueStartsAt(p, s, at)
    ensures IsMasked(s[at..])
  {
    var k :| 0 <= k <= at && PrefixSpans(p, s, k, at);
    CleanTail(p, s, k);
    assert s[k..][at - k..] == s[at..];
  }

  lemma {:induction false} CleanValuesAreMasked(p: Prefix, s: string, at: nat, u: string, ops: seq<Edit>)
    requires Clean(p, s) && at <= |s| && u == s[at..] && Fits(u, ops) && MasksOnlyValues(p, s, at, ops)
    ensures MasksMasked(u, ops)
    decreases |ops|
  {
    if ops != [] {
      if ops[0].Keep? {
        CleanValuesAreMasked(p, s, at + 1, u[1..], ops[1..]);
      } else {
        var n := ops[0].n;
        assert u[n..] == s[at + n..];
        CleanValuesAreMasked(p, s, at + n, u[n..], ops[1..]);
        CleanValue(p, s, at);
      }
    }
  }

  /** So a pass over a text that is already clean for its pattern is the identity. */
  lemma CleanIsFixed(p: Prefix, s: string, ops: seq<Edit>)
    requires Clean(p, s) && Fits(s, ops) && MasksOnlyValues(p, s, 0, ops)
    ensures Apply(s, ops) == s
  {
    CleanValuesAreMasked(p, s, 0, s, ops);
    MaskingMaskedIsFixed(s, ops);
  }
}
