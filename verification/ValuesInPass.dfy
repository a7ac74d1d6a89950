/** What a pass makes of a value: whether it hides it, by whatever text the value is preceded. */
module ValuesInPass {
  import opened Wrappers
  import opened Patterns
  import opened SecretPatterns
  import opened RewritePass
  import opened PrefixPass
  import opened PassPieces

  /** A value character that no prefix contains. */
  const PROBE := "["

  /** The pass masks a value that comes after `pre`: a probe there does not survive. */
  predicate Hides(q: Prefix, pre: string) {
    !EndsInProbe(Pass(q, pre + PROBE))
  }

  predicate EndsInProbe(s: string) {
    s != "" && s[|s| - 1] == '['
  }

  /** What the pass makes of the text before a probe that survives. */
  function Stem(q: Prefix, pre: string): (r: string)
    requires !Hides(q, pre)
    ensures Pass(q, pre + PROBE) == r + PROBE
  {
    var o := Pass(q, pre + PROBE);
    o[..|o| - 1]
  }

  lemma EndsInTail(a: string, b: string)
    requires b != ""
    ensures EndsInProbe(a + b) <==> EndsInProbe(b)
  {
  }

  /** A match may be under way, its value in `pre` or right after it. */
  ghost predicate HeldBy(hold: Option<nat>, pre: string) {
    hold.Some? ==> hold.value <= |pre| && (hold.value < |pre| ==> IsValue(pre[hold.value]))
  }

  lemma HeldPends(hold: Option<nat>, pre: string, u: string)
    requires HeldBy(hold, pre) && StartsValue(u)
    ensures Pending(hold, pre + u)
  {
    assert (pre + u)[|pre|] == u[0];
  }

  // ---------- Matches near a value ----------

  /** A match in `pre` and a probe has its value in `pre`, or the probe as its value. */
  lemma MatchEndsBy(q: Prefix, pre: string, i: nat)
    requires WellFormed(q) && i <= |pre| && PrefixEnd(q, (pre + PROBE)[i..]).Some?
    ensures i < |pre| && PrefixEnd(q, (pre + PROBE)[i..]).value <= |pre| - i
  {
    PrefixShape(q, (pre + PROBE)[i..]);
  }

  /** And it is a match with any other value there. */
  lemma MatchMoves(q: Prefix, pre: string, u: string, i: nat)
    requires WellFormed(q) && i < |pre| && PrefixEnd(q, (pre + PROBE)[i..]).Some? && StartsValue(u)
    ensures PrefixEnd(q, (pre + u)[i..]) == PrefixEnd(q, (pre + PROBE)[i..])
  {
    MatchEndsBy(q, pre, i);
    assert (pre + PROBE)[i..] == pre[i..] + PROBE && (pre + u)[i..] == pre[i..] + u;
    MatchIsLocal(q, pre[i..], PROBE, u, PrefixEnd(q, (pre + PROBE)[i..]).value);
  }

  /** At the front the two match alike, unless the match reaches over the beginning of the value. */
  lemma {:induction false} MatchesAlike(q: Prefix, pre: string, u: string)
    requires WellFormed(q) && pre != "" && StartsValue(u)
    ensures
      var p, r := PrefixEnd(q, pre + PROBE), PrefixEnd(q, pre + u);
      && (p.Some? ==> p == r && p.value <= |pre| && HeldBy(p, pre))
      && (p.None? && r.Some? ==> r.value > |pre|)
  {
    var s := pre + PROBE;
    assert s[0..] == s && (pre + u)[0..] == pre + u;
    if PrefixEnd(q, s).Some? {
      MatchEndsBy(q, pre, 0);
      MatchMoves(q, pre, u, 0);
      PrefixEndSound(q, s);
      assert PrefixEnd(q, s).value < |pre| ==> s[PrefixEnd(q, s).value] == pre[PrefixEnd(q, s).value];
    } else if PrefixEnd(q, pre + u).Some? && PrefixEnd(q, pre + u).value <= |pre| {
      MatchIsLocal(q, pre, u, PROBE, PrefixEnd(q, pre + u).value);
    }
  }

  /** A match that does reach over it leaves the text before a probe alone, and none begins with the value. */
  lemma ReachedOverIsKept(q: Prefix, pre: string, u: string)
    requires WellFormed(q) && pre != "" && StartsValue(u)
    requires PrefixEnd(q, pre + u).Some? && PrefixEnd(q, pre + PROBE).None?
    ensures Pass(q, pre + PROBE) == pre + PROBE && PrefixEnd(q, u).None?
  {
    var s, t := pre + PROBE, pre + u;
    MatchesAlike(q, pre, u);
    assert s[0..] == s && t[|pre|..] == u;
    forall i | 0 <= i < |s| ensures PrefixEnd(q, s[i..]).None? {
      if PrefixEnd(q, s[i..]).Some? {
        MatchEndsBy(q, pre, i);
        MatchMoves(q, pre, u, i);
        NoOverlap(q, t, i);
      }
    }
    assert s == s + "";
    UnmatchedKept(q, s, s, "");
    NoOverlap(q, t, |pre|);
  }

  lemma ProbeIsKept(q: Prefix)
    requires WellFormed(q)
    ensures Pass(q, PROBE) == PROBE
  {
    if PrefixEnd(q, PROBE).Some? { PrefixShape(q, PROBE); }
  }

  // ---------- How a pass comes to a value ----------

  /** A pass comes to a value with a run that goes on over it, or else maybe with a match under way. */
  datatype Arrival = InRun | Free(hold: Option<nat>)

  /** What the pass makes of the value, and of what follows it. */
  function Goes(q: Prefix, on: Arrival, u: string): string
    requires on.Free? ==> Pending(on.hold, u)
  {
    match on
    case InRun => Pass(q, u[Run(u)..])
    case Free(hold) => Out(q, hold, u)
  }

  /** Arriving so, the pass makes `stem` of the text before any value; and a probe that it arrives at
      in a run is masked, any other survives. */
  ghost predicate Arrives(q: Prefix, hold: Option<nat>, pre: string, u: string, stem: string, on: Arrival) {
    && Pending(hold, pre + u) && Pending(hold, pre + PROBE)
    && (on.Free? ==> Pending(on.hold, u) && (on.hold.Some? ==> PrefixEnd(q, u).None?))
    && (on.InRun? ==> stem != "" && !EndsInProbe(stem))
    && Out(q, hold, pre + u) == stem + Goes(q, on, u)
    && Out(q, hold, pre + PROBE) == if on.InRun? then stem else stem + PROBE
  }

  /** A run that reaches the value takes it along. */
  lemma {:induction false} FullRunMasks(q: Prefix, pre: string, u: string)
    requires Run(pre) == |pre| && StartsValue(u)
    ensures Pending(Some(0), pre + u) && Out(q, Some(0), pre + u) == MASK + Pass(q, u[Run(u)..])
  {
    RunReaches(pre, u);
    TailOf(pre, u, Run(u));
    OutMasks(q, pre + u, |pre| + Run(u));
  }

  lemma TailOf(a: string, b: string, k: nat)
    requires k <= |b|
    ensures (a + b)[|a| + k..] == b[k..]
  {
  }

  lemma OutMasks(q: Prefix, s: string, n: nat)
    requires n == Run(s) > 0
    ensures Pending(Some(0), s) && Out(q, Some(0), s) == MASK + Pass(q, s[n..])
  {
  }

  lemma ProbeRun()
    ensures StartsValue(PROBE) && Run(PROBE) == |PROBE| && PROBE[Run(PROBE)..] == ""
  {
    RunIs(PROBE, 1);
  }

  lemma ShortRunMasks(q: Prefix, pre: string, u: string)
    requires Run(pre) < |pre| && IsValue(pre[0])
    ensures Pending(Some(0), pre + u)
    ensures Out(q, Some(0), pre + u) == MASK + Pass(q, pre[Run(pre)..] + u)
  {
    RunIsLocal(pre, u);
    assert (pre + u)[Run(pre)..] == pre[Run(pre)..] + u;
  }

  /** Whatever the text before, and under way in it, a pass arrives at a value in one of these ways. */
  lemma {:induction false} ComesTo(q: Prefix, hold: Option<nat>, pre: string, u: string)
    returns (stem: string, on: Arrival)
    requires WellFormed(q) && StartsValue(u) && HeldBy(hold, pre)
    ensures Arrives(q, hold, pre, u, stem, on)
    decreases |pre|, if hold.None? then 3 else 1
  {
    ProbeRun();
    HeldPends(hold, pre, u);
    HeldPends(hold, pre, PROBE);
    if hold == Some(0) {
      stem, on := ComesByMask(q, pre, u);
    } else if pre == "" {
      assert pre + PROBE == PROBE && pre + u == u;
      ProbeIsKept(q);
      stem, on := "", Free(None);
    } else {
      MatchesAlike(q, pre, u);
      if hold.None? && PrefixEnd(q, pre + PROBE).Some? {
        stem, on := ComesByMatch(q, pre, u);
      } else if hold.None? && PrefixEnd(q, pre + u).Some? {
        stem, on := ComesInMatch(q, pre, u);
      } else {
        stem, on := ComesByStep(q, hold, pre, u);
      }
    }
  }

  lemma {:induction false} ComesByMask(q: Prefix, pre: string, u: string) returns (stem: string, on: Arrival)
    requires WellFormed(q) && StartsValue(u) && HeldBy(Some(0), pre)
    ensures Arrives(q, Some(0), pre, u, stem, on)
    decreases |pre|, 0
  {
    if Run(pre) == |pre| {
      ProbeRun();
      FullRunMasks(q, pre, u);
      FullRunMasks(q, pre, PROBE);
      assert MASK + "" == MASK;
      stem, on := MASK, InRun;
    } else {
      var tail := pre[Run(pre)..];
      ShortRunMasks(q, pre, u);
      ShortRunMasks(q, pre, PROBE);
      stem, on := ComesTo(q, None, tail, u);
      ArrivesBehind(q, Some(0), pre, MASK, None, tail, u, stem, on);
      stem := MASK + stem;
    }
  }

  lemma {:induction false} ComesByMatch(q: Prefix, pre: string, u: string) returns (stem: string, on: Arrival)
    requires WellFormed(q) && StartsValue(u) && pre != "" && PrefixEnd(q, pre + PROBE).Some?
    ensures Arrives(q, None, pre, u, stem, on)
    decreases |pre|, 2
  {
    MatchesAlike(q, pre, u);
    OutMatches(q, pre + PROBE);
    OutMatches(q, pre + u);
    stem, on := ComesTo(q, PrefixEnd(q, pre + PROBE), pre, u);
  }

  /** A match that begins in `pre` and has its value in `u` is under way. */
  lemma ComesInMatch(q: Prefix, pre: string, u: string) returns (stem: string, on: Arrival)
    requires WellFormed(q) && StartsValue(u) && pre != ""
    requires PrefixEnd(q, pre + u).Some? && PrefixEnd(q, pre + PROBE).None?
    ensures Arrives(q, None, pre, u, stem, on)
  {
    var e := PrefixEnd(q, pre + u).value;
    MatchesAlike(q, pre, u);
    ReachedOverIsKept(q, pre, u);
    OutMatches(q, pre + u);
    PendingBehind(pre, u, e - |pre|);
    stem, on := pre, Free(Some(e - |pre|));
    HoldKeeps(q, e, pre + u, pre, u, e - |pre|, Out(q, on.hold, u));
  }

  lemma OutSteps(q: Prefix, hold: Option<nat>, hold': Option<nat>, s: string)
    requires s != "" && Pending(hold, s) && hold != Some(0) && (hold.None? ==> PrefixEnd(q, s).None?)
    requires hold' == if hold.None? then None else Some(hold.value - 1)
    ensures Pending(hold', s[1..]) && Out(q, hold, s) == [s[0]] + Out(q, hold', s[1..])
  {
  }

  lemma {:induction false} ComesByStep(q: Prefix, hold: Option<nat>, pre: string, u: string)
    returns (stem: string, on: Arrival)
    requires WellFormed(q) && StartsValue(u) && HeldBy(hold, pre) && pre != "" && hold != Some(0)
    requires hold.None? ==> PrefixEnd(q, pre + PROBE).None? && PrefixEnd(q, pre + u).None?
    ensures Arrives(q, hold, pre, u, stem, on)
    decreases |pre|, 0
  {
    var hold', c := if hold.None? then None else Some(hold.value - 1), [pre[0]];
    ProbeRun();
    HeldPends(hold, pre, u);
    HeldPends(hold, pre, PROBE);
    Uncons(pre, u);
    Uncons(pre, PROBE);
    OutSteps(q, hold, hold', pre + u);
    OutSteps(q, hold, hold', pre + PROBE);
    stem, on := ComesTo(q, hold', pre[1..], u);
    ArrivesBehind(q, hold, pre, c, hold', pre[1..], u, stem, on);
    stem := c + stem;
  }

  /** What is kept or masked before makes no difference. */
  lemma {:induction false} ArrivesBehind(q: Prefix, hold: Option<nat>, pre: string, a: string, hold': Option<nat>,
                                         pre': string, u: string, stem: string, on: Arrival)
    requires Arrives(q, hold', pre', u, stem, on) && Pending(hold, pre + u) && Pending(hold, pre + PROBE)
    requires Out(q, hold, pre + u) == a + Out(q, hold', pre' + u)
    requires Out(q, hold, pre + PROBE) == a + Out(q, hold', pre' + PROBE)
    ensures Arrives(q, hold, pre, u, a + stem, on)
  {
    Assoc(a, stem, Goes(q, on, u));
    Assoc(a, stem, PROBE);
    if stem != "" { EndsInTail(a, stem); }
  }

  /** The run is masked exactly if the probe is. */
  lemma HidesIff(q: Prefix, pre: string, u: string) returns (stem: string, on: Arrival)
    requires WellFormed(q) && StartsValue(u)
    ensures Arrives(q, None, pre, u, stem, on) && (Hides(q, pre) <==> on.InRun?)
    ensures on.Free? ==> stem == Stem(q, pre)
  {
    stem, on := ComesTo(q, None, pre, u);
    EndsInTail(stem, PROBE);
  }

  // ---------- What a pass leaves open or shut ----------

  /** A pass keeps what follows a value open or shut. */
  lemma ShutIsKept(q: Prefix, t: string)
    requires WellFormed(q) && EndsValue(t)
    ensures EndsValue(Pass(q, t)) && (Shut(Pass(q, t)) <==> Shut(t))
  {
    var g := Gap(t);
    var r, o := t[g..], Pass(q, t[g..]);
    GapKept(q, t, g);
    GapIsMaximal(t);
    FirstIsKept(q, r);
    GapIs(t[..g], r, o);
    if r != "" && IsValue(r[0]) { MaskedStays(q, r); }
  }

  /** No value begins at the front of a text. */
  lemma FirstIsKept(q: Prefix, r: string)
    requires WellFormed(q)
    ensures if r == "" then Pass(q, r) == "" else Pass(q, r) != "" && Pass(q, r)[0] == r[0]
  {
    if r != "" && PrefixEnd(q, r).Some? {
      PrefixShape(q, r);
      OutMatches(q, r);
      OutHolds(q, PrefixEnd(q, r).value, r);
    }
  }

  lemma GapIs(sp: string, r: string, o: string)
    requires forall i :: 0 <= i < |sp| ==> IsSpace(sp[i])
    requires r == "" <==> o == ""
    requires r != "" ==> !IsSpace(r[0]) && !IsSpace(o[0]) && IsValue(r[0]) == IsValue(o[0])
    ensures Gap(sp + o) == |sp| && (sp + o)[|sp|..] == o
    ensures EndsValue(sp + r) <==> EndsValue(sp + o)
  {
    var t := sp + o;
    GapIsMaximal(t);
    assert |sp| < |t| ==> t[|sp|] == o[0];
    assert forall i :: 0 <= i < |sp| ==> t[i] == sp[i];
  }

  /** What is not a mask does not become one, and a mask stays. */
  lemma MaskedStays(q: Prefix, r: string)
    requires WellFormed(q) && r != "" && IsValue(r[0])
    ensures IsMasked(Pass(q, r)) <==> IsMasked(r)
  {
    if IsMasked(r) {
      MaskIsKept(q, r);
      var rest := r[Run(r)..];
      RunIsMaximal(r);
      FirstIsKept(q, rest);
      MaskRun(MASK + Pass(q, rest));
    } else if IsMasked(Pass(q, r)) {
      NewMaskIsOld(q, r);
    }
  }

  lemma NewMaskIsOld(q: Prefix, r: string)
    requires WellFormed(q) && r != "" && IsMasked(Pass(q, r))
    ensures IsMasked(r)
  {
    var ops, o, m := Scan(q, r), Pass(q, r), MASK;
    OutIsApplied(q, None, r);
    FirstIsKept(q, r);
    FirstEditKeeps(q, r);
    RunIsMaximal(o);
    assert o[1..][..9] == o[..10][1..] == m[1..] && (|o| > 10 ==> o[1..][9] == o[10]);
    RestOfMaskIsOld(r[1..], ops[1..], o[1..]);
    forall i | 0 <= i < 10 ensures r[i] == m[i] { if i > 0 { assert r[1..][i - 1] == m[1..][i - 1]; } }
    assert |r| > 10 ==> r[1..][9] == r[10];
    MaskRun(r);
  }

  /** What follows the opening bracket of a mask was there before. */
  lemma RestOfMaskIsOld(s: string, ops: seq<Edit>, o: string)
    requires Fits(s, ops) && o == Apply(s, ops) && |o| >= 9 && o[..9] == MASK[1..]
    requires |o| > 9 ==> !IsValue(o[9])
    ensures |s| >= 9 && s[..9] == MASK[1..] && (|s| > 9 ==> !IsValue(s[9]))
  {
    var m := MASK;
    forall i | 0 <= i < 9 ensures o[i] != '[' { MaskLetters(m, i + 1); assert o[..9][i] == m[1..][i]; }
    KeptPrefix(s, ops, 9);
    if |s| > 9 { DelimiterWasThere(s[9..], ops[9..], o[9..]); }
  }

  lemma FirstEditKeeps(q: Prefix, r: string)
    requires WellFormed(q) && r != ""
    ensures Fits(r, Scan(q, r)) && Scan(q, r) != [] && Scan(q, r)[0].Keep?
  {
    ScanFits(q, None, r);
    if PrefixEnd(q, r).Some? {
      PrefixShape(q, r);
      PrefixEndSound(q, r);
      assert ScanEdits(q, PrefixEnd(q, r), r)[0].Keep?;
    }
  }

  lemma DelimiterWasThere(s: string, ops: seq<Edit>, o: string)
    requires Fits(s, ops) && o == Apply(s, ops) && s != "" && (o != "" ==> !IsValue(o[0]))
    ensures !IsValue(s[0])
  {
    MaskLetters(MASK, 0);
  }

  /** `o` ends in a bracket, and only if `s` does in an opening one. */
  ghost predicate EndsAlike(s: string, o: string) {
    o != "" && Blocked(o) && (EndsInProbe(o) ==> EndsInProbe(s))
  }

  lemma EndsAlikeAfter(s: string, n: nat, a: string, o: string)
    requires n < |s| && EndsAlike(s[n..], o)
    ensures EndsAlike(s, a + o)
  {
    EndsInTail(a, o);
  }

  /** A probe, or a closing bracket, at the end of a text stays a bracket there. */
  lemma {:induction false} BracketStays(q: Prefix, hold: Option<nat>, s: string)
    requires WellFormed(q) && Pending(hold, s) && s != "" && Blocked(s)
    ensures EndsAlike(s, Out(q, hold, s))
    decreases |s|, if hold.None? then 1 else 0
  {
    if hold == Some(0) {
      var n := Run(s);
      if n < |s| {
        BracketStays(q, None, s[n..]);
        EndsAlikeAfter(s, n, MASK, Pass(q, s[n..]));
      } else {
        assert s[n..] == "" && Out(q, hold, s) == MASK + "" == MASK;
      }
    } else if hold.None? && PrefixEnd(q, s).Some? {
      OutMatches(q, s);
      BracketStays(q, PrefixEnd(q, s), s);
    } else {
      var hold' := if hold.None? then None else Some(hold.value - 1);
      assert Out(q, hold, s) == [s[0]] + Out(q, hold', s[1..]);
      if |s| > 1 {
        BracketStays(q, hold', s[1..]);
        EndsAlikeAfter(s, 1, [s[0]], Out(q, hold', s[1..]));
      } else {
        assert s[1..] == "" && Out(q, hold, s) == s;
      }
    }
  }
}
