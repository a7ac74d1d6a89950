/** One pass over a text, piece by piece: where a text may be cut so that the pass goes over its
    parts by themselves. */
module PassPieces {
  import opened Wrappers
  import opened Patterns
  import opened SecretPatterns
  import opened RewritePass
  import opened PrefixPass

  /** A value that comes before `t` ends there. */
  predicate EndsValue(t: string) {
    t == "" || !IsValue(t[0])
  }

  /** A value begins here. */
  predicate StartsValue(u: string) {
    u != "" && IsValue(u[0])
  }

  // ---------- A pass, step by step ----------

  /** The text after a pass, with `hold` more prefix characters of a match to come, then its value. */
  function Out(q: Prefix, hold: Option<nat>, s: string): string
    requires Pending(hold, s)
    decreases |s|, if hold.None? then 1 else 0
  {
    if s == "" then "" else
    match hold
    case Some(k) =>
      if k == 0 then MASK + Out(q, None, s[Run(s)..]) else [s[0]] + Out(q, Some(k - 1), s[1..])
    case None =>
      if PrefixEnd(q, s).None? then [s[0]] + Out(q, None, s[1..])
      else PrefixEndSound(q, s); Out(q, PrefixEnd(q, s), s)
  }

  function Pass(q: Prefix, s: string): string {
    Out(q, None, s)
  }

  lemma {:induction false} OutIsApplied(q: Prefix, hold: Option<nat>, s: string)
    requires Pending(hold, s)
    ensures Fits(s, ScanEdits(q, hold, s)) && Out(q, hold, s) == Apply(s, ScanEdits(q, hold, s))
    decreases |s|, if hold.None? then 1 else 0
  {
    ScanFits(q, hold, s);
    if s != "" {
      var ops := ScanEdits(q, hold, s);
      if hold == Some(0) {
        OutIsApplied(q, None, s[Run(s)..]);
        assert ops[1..] == ScanEdits(q, None, s[Run(s)..]);
      } else if hold.Some? {
        OutIsApplied(q, Some(hold.value - 1), s[1..]);
        assert ops[1..] == ScanEdits(q, Some(hold.value - 1), s[1..]);
      } else if PrefixEnd(q, s).Some? {
        PrefixEndSound(q, s);
        OutIsApplied(q, PrefixEnd(q, s), s);
      } else {
        OutIsApplied(q, None, s[1..]);
        assert ops[1..] == ScanEdits(q, None, s[1..]);
      }
    }
  }

  lemma OutHolds(q: Prefix, k: nat, s: string)
    requires Pending(Some(k), s) && k > 0
    ensures Pending(Some(k - 1), s[1..]) && Out(q, Some(k), s) == [s[0]] + Out(q, Some(k - 1), s[1..])
  {
  }

  lemma OutMatches(q: Prefix, s: string)
    requires PrefixEnd(q, s).Some?
    ensures Pending(PrefixEnd(q, s), s) && Pass(q, s) == Out(q, PrefixEnd(q, s), s)
  {
    PrefixEndSound(q, s);
  }

  lemma OutSkips(q: Prefix, s: string)
    requires s != "" && PrefixEnd(q, s).None?
    ensures Pass(q, s) == [s[0]] + Pass(q, s[1..])
  {
  }

  lemma Uncons(a: string, b: string)
    requires a != ""
    ensures (a + b)[0] == a[0] && (a + b)[1..] == a[1..] + b && [a[0]] + (a[1..] + b) == a + b
  {
  }

  /** A match under way keeps everything up to its value, which begins `j` characters into `b`. */
  lemma {:induction false} HoldKeeps(q: Prefix, k: nat, s: string, a: string, b: string, j: nat, rest: string)
    requires s == a + b && k == |a| + j && Pending(Some(j), b) && rest == Out(q, Some(j), b)
    ensures Pending(Some(k), s) && Out(q, Some(k), s) == a + rest
    decreases |a|
  {
    if a == "" {
      assert s == b;
    } else {
      Uncons(a, b);
      PendingBehind(a, b, j);
      OutHolds(q, k, s);
      HoldKeeps(q, k - 1, s[1..], a[1..], b, j, rest);
      Uncons(a, rest);
    }
  }

  lemma PendingBehind(a: string, b: string, j: nat)
    ensures Pending(Some(|a| + j), a + b) <==> Pending(Some(j), b)
  {
  }

  ghost predicate NoMatchBefore(q: Prefix, n: nat, s: string)
    requires n <= |s|
  {
    forall i :: 0 <= i < n ==> PrefixEnd(q, s[i..]).None?
  }

  lemma NoMatchTail(q: Prefix, n: nat, s: string)
    requires 1 <= n <= |s| && NoMatchBefore(q, n, s)
    ensures PrefixEnd(q, s).None? && NoMatchBefore(q, n - 1, s[1..])
  {
    assert s[0..] == s;
    forall i | 0 <= i < n - 1 ensures PrefixEnd(q, s[1..][i..]).None? { assert s[1..][i..] == s[i + 1..]; }
  }

  /** Text in which no match begins is kept. */
  lemma {:induction false} UnmatchedKept(q: Prefix, s: string, a: string, b: string)
    requires s == a + b && NoMatchBefore(q, |a|, s)
    ensures Pass(q, s) == a + Pass(q, b)
    decreases |a|
  {
    if a == "" {
      assert s == b;
    } else {
      Uncons(a, b);
      NoMatchTail(q, |a|, s);
      OutSkips(q, s);
      UnmatchedKept(q, s[1..], a[1..], b);
      Uncons(a, Pass(q, b));
    }
  }

  // ---------- Matches and runs are local ----------

  /** A match whose value begins in `a`, or right after it, does not depend on what follows. */
  lemma {:induction false} MatchIsLocal(q: Prefix, a: string, b: string, c: string, e: nat)
    requires Unambiguous(q) && PrefixEnd(q, a + b) == Some(e) && e <= |a|
    requires e == |a| ==> c != "" && IsValue(c[0])
    ensures PrefixEnd(q, a + c) == Some(e)
  {
    PrefixEndSound(q, a + b);
    assert (a + b)[..e] == a[..e] == (a + c)[..e];
    assert (a + c)[e] == if e < |a| then (a + b)[e] else c[0];
    PrefixEndComplete(q, a + c, e);
  }

  lemma RunIsLocal(a: string, b: string)
    requires Run(a) < |a| || EndsValue(b)
    ensures Run(a + b) == Run(a)
  {
    RunIsMaximal(a);
    RunIs(a + b, Run(a));
  }

  lemma RunReaches(a: string, u: string)
    requires Run(a) == |a|
    ensures Run(a + u) == |a| + Run(u)
  {
    RunIsMaximal(a);
    RunIsMaximal(u);
    var n := |a| + Run(u);
    forall i | 0 <= i < n ensures IsValue((a + u)[i]) { if i >= |a| { assert (a + u)[i] == u[i - |a|]; } }
    RunIs(a + u, n);
  }

  // ---------- What can follow a value without telling on it ----------

  /** Number of white space characters at the front. */
  function Gap(t: string): (n: nat)
    ensures n <= |t|
  {
    if t == "" || !IsSpace(t[0]) then 0 else 1 + Gap(t[1..])
  }

  lemma {:induction false} GapIsMaximal(t: string)
    ensures forall i :: 0 <= i < Gap(t) ==> IsSpace(t[i])
    ensures Gap(t) < |t| ==> !IsSpace(t[Gap(t)])
  {
    if Gap(t) > 0 {
      GapIsMaximal(t[1..]);
      assert forall i :: 1 <= i < Gap(t) ==> t[i] == t[1..][i - 1];
    }
  }

  /** The next value after the white space, if there is one, is a mask already. */
  predicate Shut(t: string) {
    EndsValue(t) && (Gap(t) < |t| && IsValue(t[Gap(t)]) ==> IsMasked(t[Gap(t)..]))
  }

  /** No match begins at or before the end of `s` and has its value begin in what follows it. */
  predicate Blocked(s: string) {
    s == "" || s[|s| - 1] == '[' || s[|s| - 1] == ']'
  }

  lemma {:induction false} GapBeforeValue(t: string, h: nat)
    requires h < |t| && IsValue(t[h]) && forall i :: 0 <= i < h ==> t[i] != '[' && t[i] != ','
    ensures Gap(t) <= h && (Shut(t) ==> Gap(t) == h && IsMasked(t[h..]))
  {
    var g := Gap(t);
    GapIsMaximal(t);
    assert g < |t| ==> t[g..][0] == t[g];
  }

  /** No bracket and no comma is part of a prefix. */
  lemma PrefixAvoids(q: Prefix, u: string, e: nat)
    requires WellFormed(q) && PrefixEnd(q, u) == Some(e)
    ensures IsValue(u[e]) && forall i :: 0 <= i < e ==> u[i] != '[' && u[i] != ']' && u[i] != ','
  {
    PrefixEndSound(q, u);
    forall i | 0 <= i < e ensures u[i] != '[' && u[i] != ']' && u[i] != ',' {
      SpelledBracketless(q, u[..e], i);
    }
  }

  /** Of a match that begins in `s` and has its value in `t`: what `t` has before the value. */
  lemma {:induction false} CrossingAvoids(q: Prefix, s: string, t: string, h: nat)
    requires WellFormed(q) && s != "" && PrefixEnd(q, s + t) == Some(|s| + h)
    ensures h < |t| && IsValue(t[h]) && !Blocked(s) && forall i :: 0 <= i < h ==> t[i] != '[' && t[i] != ','
  {
    var u := s + t;
    PrefixAvoids(q, u, |s| + h);
    assert u[|s| - 1] == s[|s| - 1];
    assert forall i :: 0 <= i <= h ==> u[|s| + i] == t[i];
  }

  /** A match that begins in `s` and has its value in `t` has a mask as its value, right after the gap. */
  lemma {:induction false} CrossingFindsMask(q: Prefix, s: string, t: string, h: nat)
    requires WellFormed(q) && s != "" && PrefixEnd(q, s + t) == Some(|s| + h)
    ensures !Blocked(s) && h < |t|
    ensures Shut(t) ==> h == Gap(t) && IsMasked(t[h..])
  {
    CrossingAvoids(q, s, t, h);
    GapBeforeValue(t, h);
  }

  /** White space is kept, and so is a mask. */
  lemma GapKept(q: Prefix, t: string, g: nat)
    requires WellFormed(q) && g == Gap(t)
    ensures Pass(q, t) == t[..g] + Pass(q, t[g..])
  {
    assert t == t[..g] + t[g..];
    GapIsMaximal(t);
    forall i | 0 <= i < g ensures PrefixEnd(q, t[i..]).None? { assert t[i..][0] == t[i]; }
    UnmatchedKept(q, t, t[..g], t[g..]);
  }

  lemma MaskIsKept(q: Prefix, t: string)
    requires WellFormed(q) && IsMasked(t)
    ensures Pass(q, t) == MASK + Pass(q, t[Run(t)..])
  {
    MaskedIsCut(t);
    var m, rest := MASK, t[Run(t)..];
    forall i | 0 <= i < |m| ensures PrefixEnd(q, t[i..]).None? {
      MaskClosed(m);
      MaskUnmatched(q, m[i..], rest);
      assert t[i..] == m[i..] + rest;
    }
    UnmatchedKept(q, t, m, rest);
  }

  ghost predicate HeldIn(hold: Option<nat>, s: string) {
    hold.Some? ==> hold.value < |s| && IsValue(s[hold.value])
  }

  /** A pass over a text and what follows it is a pass over each. */
  lemma {:induction false} PassSplits(q: Prefix, hold: Option<nat>, s: string, t: string, u: string, rest: string)
    requires WellFormed(q) && EndsValue(t) && (Shut(t) || Blocked(s)) && HeldIn(hold, s)
    requires u == s + t && rest == Pass(q, t)
    ensures Pending(hold, u) && Pending(hold, s) && Out(q, hold, u) == Out(q, hold, s) + rest
    decreases |s|, if hold.None? then 3 else 1
  {
    if s == "" {
      assert u == t;
    } else if hold == Some(0) {
      MaskSplits(q, s, t, u, rest);
    } else if hold.Some? {
      StepSplits(q, hold, Some(hold.value - 1), s, t, u, rest);
    } else if PrefixEnd(q, u).None? {
      if PrefixEnd(q, s).Some? { LocalToo(q, s, t); }
      StepSplits(q, None, None, s, t, u, rest);
    } else if PrefixEnd(q, u).value < |s| {
      MatchSplits(q, s, t, u, rest);
    } else {
      CrossingSplits(q, s, t, PrefixEnd(q, u).value);
    }
  }

  lemma {:induction false} StepSplits(q: Prefix, hold: Option<nat>, hold': Option<nat>, s: string, t: string, u: string,
                                      rest: string)
    requires WellFormed(q) && EndsValue(t) && (Shut(t) || Blocked(s)) && HeldIn(hold, s) && s != ""
    requires u == s + t && rest == Pass(q, t) && hold != Some(0)
    requires hold' == if hold.None? then None else Some(hold.value - 1)
    requires hold.None? ==> PrefixEnd(q, u).None? && PrefixEnd(q, s).None?
    ensures Pending(hold, u) && Pending(hold, s) && Out(q, hold, u) == Out(q, hold, s) + rest
    decreases |s|, 0
  {
    Uncons(s, t);
    PassSplits(q, hold', s[1..], t, u[1..], rest);
    Assoc([s[0]], Out(q, hold', s[1..]), rest);
  }

  lemma {:induction false} MaskSplits(q: Prefix, s: string, t: string, u: string, rest: string)
    requires WellFormed(q) && EndsValue(t) && (Shut(t) || Blocked(s)) && s != "" && IsValue(s[0])
    requires u == s + t && rest == Pass(q, t)
    ensures Pending(Some(0), u) && Out(q, Some(0), u) == Out(q, Some(0), s) + rest
    decreases |s|, 0
  {
    var n := Run(s);
    RunIsLocal(s, t);
    assert u[n..] == s[n..] + t;
    PassSplits(q, None, s[n..], t, u[n..], rest);
    Assoc(MASK, Pass(q, s[n..]), rest);
  }

  lemma {:induction false} MatchSplits(q: Prefix, s: string, t: string, u: string, rest: string)
    requires WellFormed(q) && EndsValue(t) && (Shut(t) || Blocked(s))
    requires u == s + t && rest == Pass(q, t) && PrefixEnd(q, u).Some? && PrefixEnd(q, u).value < |s|
    ensures Pass(q, u) == Pass(q, s) + rest
    decreases |s|, 2
  {
    var e := PrefixEnd(q, u).value;
    assert s + "" == s;
    MatchIsLocal(q, s, t, "", e);
    OutMatches(q, u);
    OutMatches(q, s);
    PassSplits(q, Some(e), s, t, u, rest);
  }

  lemma LocalToo(q: Prefix, s: string, t: string)
    requires Unambiguous(q) && PrefixEnd(q, s).Some?
    ensures PrefixEnd(q, s + t) == PrefixEnd(q, s)
  {
    assert s + "" == s;
    MatchIsLocal(q, s, "", t, PrefixEnd(q, s).value);
  }

  /** The text before a match that crosses over to a mask is kept, and the mask masked again. */
  lemma {:induction false} CrossingSplits(q: Prefix, s: string, t: string, e: nat)
    requires WellFormed(q) && s != "" && PrefixEnd(q, s + t) == Some(e) && |s| <= e
    requires Shut(t) || Blocked(s)
    ensures Pass(q, s + t) == Pass(q, s) + Pass(q, t)
  {
    CrossingFindsMask(q, s, t, e - |s|);
    var g := Gap(t);
    var a, r := t[..g], t[g..];
    assert t == a + r;
    GapKept(q, t, g);
    CrossedIsKept(q, s, t, e);
    MaskedFrom(q, s + t, s + a, r, e);
    MaskIsKept(q, r);
    Assoc(s, a, r);
    Assoc(s, a, Pass(q, r));
  }

  lemma Assoc(a: string, b: string, c: string)
    ensures (a + b) + c == a + (b + c)
  {
  }

  /** A match that reaches from the front of `u` to `r` keeps `a` and masks what is there. */
  lemma MaskedFrom(q: Prefix, u: string, a: string, r: string, e: nat)
    requires u == a + r && e == |a| && PrefixEnd(q, u) == Some(e) && r != ""
    ensures IsValue(r[0]) && Pass(q, u) == a + (MASK + Pass(q, r[Run(r)..]))
  {
    OutMatches(q, u);
    assert u[e] == r[0];
    HoldKeeps(q, e, u, a, r, 0, MASK + Pass(q, r[Run(r)..]));
  }

  /** Text that a match crosses over from has no match of its own. */
  lemma CrossedIsKept(q: Prefix, s: string, t: string, e: nat)
    requires WellFormed(q) && s != "" && PrefixEnd(q, s + t) == Some(e) && |s| <= e
    ensures Pass(q, s) == s
  {
    assert (s + t)[0..] == s + t && s[0..] == s;
    forall i | 0 <= i < |s| ensures PrefixEnd(q, s[i..]).None? {
      if PrefixEnd(q, s[i..]).Some? {
        LocalToo(q, s[i..], t);
        assert s[i..] + t == (s + t)[i..];
        if i > 0 { NoOverlap(q, s + t, i); }
      }
    }
    assert s == s + "";
    UnmatchedKept(q, s, s, "");
  }

  // ---------- Values ----------

  /** A possible value: one or more value characters. */
  predicate IsValueText(v: string) {
    v != "" && forall i :: 0 <= i < |v| ==> IsValue(v[i])
  }

  lemma {:induction false} ValueRun(v: string, t: string)
    requires IsValueText(v) && EndsValue(t)
    ensures StartsValue(v + t) && Run(v + t) == |v| && (v + t)[|v|..] == t
  {
    RunIs(v + t, |v|);
  }

  lemma MaskIsValue()
    ensures IsValueText(MASK)
  {
    var m := MASK;
    forall i | 0 <= i < |m| ensures IsValue(m[i]) { MaskLetters(m, i); }
  }

  // ---------- Several passes ----------

  function Passes(qs: seq<Prefix>, s: string): string {
    if qs == [] then s else Passes(qs[1..], Pass(qs[0], s))
  }

  ghost predicate AllWellFormed(qs: seq<Prefix>) {
    forall q <- qs :: WellFormed(q)
  }

  /** The prefixed patterns, in the order of their passes. */
  function Prefixes(): seq<Prefix> {
    [Bearer(), ApiKey(), Password()]
  }

  lemma PrefixesWellFormed()
    ensures AllWellFormed(Prefixes())
  {
    BearerWellFormed();
    ApiKeyWellFormed();
    PasswordWellFormed();
  }
}
