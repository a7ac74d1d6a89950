/** One rewriting pass, seen as an edit script: each character is kept, or a run is masked. */
module RewritePass {
  import opened Wrappers
  import opened Patterns
  import opened SecretPatterns

  const MASK := "[REDACTED]"

  datatype Edit = Keep | Mask(n: nat)

  /** The script consumes exactly `s`. */
  predicate Fits(s: string, ops: seq<Edit>)
    decreases |ops|
  {
    if ops == [] then s == "" else
    match ops[0]
    case Keep => s != "" && Fits(s[1..], ops[1..])
    case Mask(n) => 1 <= n <= |s| && Fits(s[n..], ops[1..])
  }

  function Apply(s: string, ops: seq<Edit>): string
    requires Fits(s, ops)
    decreases |ops|
  {
    if ops == [] then "" else
    match ops[0]
    case Keep => [s[0]] + Apply(s[1..], ops[1..])
    case Mask(n) => MASK + Apply(s[n..], ops[1..])
  }

  predicate AllKeep(ops: seq<Edit>, k: nat) {
    k <= |ops| && forall i :: 0 <= i < k ==> ops[i].Keep?
  }

  /** Length of the maximal run of value characters at the front of `s`. */
  function Run(s: string): (n: nat)
    ensures n <= |s|
    ensures n > 0 <==> s != "" && IsValue(s[0])
  {
    if s == "" || !IsValue(s[0]) then 0 else 1 + Run(s[1..])
  }

  lemma {:induction false} RunIsMaximal(s: string)
    ensures forall i :: 0 <= i < Run(s) ==> IsValue(s[i])
    ensures Run(s) < |s| ==> !IsValue(s[Run(s)])
  {
    if Run(s) > 0 {
      RunIsMaximal(s[1..]);
      assert forall i :: 1 <= i < Run(s) ==> s[i] == s[1..][i - 1];
    }
  }

  /** The value at the front of `u` is exactly the mask. */
  predicate IsMasked(u: string) {
    Run(u) == |MASK| && MASK <= u
  }

  /** If `p` matches at the front of `t`, its value is exactly the mask. */
  ghost predicate CleanHere(p: Prefix, t: string) {
    match PrefixEnd(p, t)
    case None => true
    case Some(e) => IsMasked(t[e..])
  }

  /** Every match of `p` anywhere in `t` has the mask as its value. */
  ghost predicate Clean(p: Prefix, t: string) {
    CleanHere(p, t) && (t == "" || Clean(p, t[1..]))
  }

  lemma {:induction false} CleanTail(p: Prefix, t: string, k: nat)
    requires Clean(p, t) && k <= |t|
    ensures Clean(p, t[k..])
    decreases k
  {
    if k == 0 { assert t[0..] == t; } else { CleanTail(p, t[1..], k - 1); assert t[1..][k - 1..] == t[k..]; }
  }

  /** `Clean`, position by position. */
  lemma {:induction false} CleanEverywhere(p: Prefix, t: string)
    ensures Clean(p, t) <==> forall i :: 0 <= i <= |t| ==> CleanHere(p, t[i..])
    decreases |t|
  {
    assert t[0..] == t;
    if t != "" {
      CleanEverywhere(p, t[1..]);
      assert forall i :: 1 <= i <= |t| ==> t[1..][i - 1..] == t[i..];
      if forall i :: 0 <= i <= |t| ==> CleanHere(p, t[i..]) {
        forall i | 0 <= i <= |t[1..]| ensures CleanHere(p, t[1..][i..]) { assert t[1..][i..] == t[i + 1..]; }
      }
    }
  }

  lemma MaskedIsCut(u: string)
    requires IsMasked(u)
    ensures u == MASK + u[Run(u)..] && u[0] == '['
  {
  }

  lemma CleanCons(p: Prefix, c: char, t: string)
    requires Clean(p, t) && CleanHere(p, [c] + t)
    ensures Clean(p, [c] + t)
  {
    assert ([c] + t)[1..] == t;
  }

  // ---------- Facts about spelled prefixes ----------

  lemma {:induction false} SpelledAvoids(p: Prefix, t: string, cls: CharClass, i: nat)
    requires Spells(p, t) && i < |t| && forall k :: 0 <= k < |p| ==> Apart(p[k].cls, cls)
    ensures !In(t[i], cls)
    decreases |t|, |p|
  {
    if t != "" && In(t[0], p[0].cls) && Spells(if p[0].Star? then p else p[1..], t[1..]) {
      if i == 0 { ApartIsDisjoint(p[0].cls, cls, t[0]); }
      else { SpelledAvoids(if p[0].Star? then p else p[1..], t[1..], cls, i - 1); }
    } else {
      SpelledAvoids(p[1..], t, cls, i);
    }
  }

  lemma {:induction false} SpelledBracketless(p: Prefix, t: string, i: nat)
    requires Spells(p, t) && i < |t|
    requires forall k :: 0 <= k < |p| ==> p[k].cls.Among? ==> forall c <- p[k].cls.members :: IsPunctuation(c)
    ensures t[i] != '[' && t[i] != ']' && t[i] != ','
    decreases |t|, |p|
  {
    if t != "" && In(t[0], p[0].cls) && Spells(if p[0].Star? then p else p[1..], t[1..]) {
      if i > 0 { SpelledBracketless(if p[0].Star? then p else p[1..], t[1..], i - 1); }
    } else {
      SpelledBracketless(p[1..], t, i);
    }
  }

  lemma {:induction false} SpelledEndsInBreak(p: Prefix, t: string)
    requires Spells(p, t)
    requires |p| >= 1 && BreakClass(p[|p| - 1].cls)
    requires (|p| >= 2 && p[|p| - 2].One? && BreakClass(p[|p| - 2].cls)) || (|p| == 1 && t != "")
    ensures t != "" && IsBreak(t[|t| - 1])
    decreases |t|, |p|
  {
    if t != "" && In(t[0], p[0].cls) && Spells(if p[0].Star? then p else p[1..], t[1..]) {
      var q := if p[0].Star? then p else p[1..];
      if |t| > 1 || |q| >= 2 { SpelledEndsInBreak(q, t[1..]); }
    } else {
      SpelledEndsInBreak(p[1..], t);
    }
  }

  // ---------- Facts about edit scripts ----------

  /** A bracket-free stretch of the output was kept, character for character. */
  lemma {:induction false} KeptPrefix(s: string, ops: seq<Edit>, e: nat)
    requires Fits(s, ops) && e <= |Apply(s, ops)| && forall i :: 0 <= i < e ==> Apply(s, ops)[i] != '['
    ensures AllKeep(ops, e) && e <= |s| && s[..e] == Apply(s, ops)[..e]
    ensures Fits(s[e..], ops[e..]) && Apply(s, ops)[e..] == Apply(s[e..], ops[e..])
    decreases |ops|
  {
    if e > 0 {
      var t := Apply(s, ops);
      assert t[0] != '[';
      assert t[1..] == Apply(s[1..], ops[1..]);
      KeptPrefix(s[1..], ops[1..], e - 1);
      assert s[e..] == s[1..][e - 1..] && ops[e..] == ops[1..][e - 1..];
      assert t[e..] == t[1..][e - 1..];
      assert forall i :: 0 < i < e ==> ops[i] == ops[1..][i - 1];
      assert s[..e] == [s[0]] + s[1..][..e - 1];
      assert t[..e] == [t[0]] + t[1..][..e - 1];
    } else {
      assert s[0..] == s && ops[0..] == ops;
    }
  }

  /** Kept characters are copied. */
  lemma {:induction false} KeepCopies(s: string, ops: seq<Edit>, k: nat)
    requires Fits(s, ops) && AllKeep(ops, k)
    ensures k <= |s| && Fits(s[k..], ops[k..]) && Apply(s, ops) == s[..k] + Apply(s[k..], ops[k..])
    decreases |ops|
  {
    if k > 0 {
      assert forall i :: 0 <= i < k - 1 ==> ops[1..][i] == ops[i + 1];
      KeepCopies(s[1..], ops[1..], k - 1);
      assert s[k..] == s[1..][k - 1..] && ops[k..] == ops[1..][k - 1..];
      var a, x := s[1..][..k - 1], Apply(s[k..], ops[k..]);
      assert s[..k] == [s[0]] + a;
      assert [s[0]] + (a + x) == ([s[0]] + a) + x;
    } else {
      assert s[0..] == s && ops[0..] == ops && s[..0] == "";
    }
  }

  /** What a pass must respect so as not to spoil the masks already in the text: masked runs
      start at a value character and never inside an existing mask. */
  predicate Legal(s: string, ops: seq<Edit>)
    requires Fits(s, ops)
    decreases |ops|
  {
    if ops == [] then true else
    match ops[0]
    case Keep => (MASK <= s ==> AllKeep(ops, |MASK|)) && Legal(s[1..], ops[1..])
    case Mask(n) => IsValue(s[0]) && Legal(s[n..], ops[1..])
  }

  /** Each match of `q` whose prefix is kept has the mask as its value, before or after the pass. */
  predicate Guarded(q: Prefix, s: string, ops: seq<Edit>)
    requires Fits(s, ops)
    decreases |ops|
  {
    if ops == [] then true else
    match ops[0]
    case Keep => GuardedHere(q, s, ops) && Guarded(q, s[1..], ops[1..])
    case Mask(n) => Guarded(q, s[n..], ops[1..])
  }

  predicate GuardedHere(q: Prefix, s: string, ops: seq<Edit>) {
    match PrefixEnd(q, s)
    case None => true
    case Some(e) =>
      AllKeep(ops, e) && e < |ops| ==>
        if ops[e].Keep? then IsMasked(s[e..]) else ops[e].n == Run(s[e..])
  }

  lemma {:induction false} LegalSuffix(s: string, ops: seq<Edit>, k: nat)
    requires Fits(s, ops) && Legal(s, ops) && AllKeep(ops, k)
    ensures k <= |s| && Fits(s[k..], ops[k..]) && Legal(s[k..], ops[k..])
    decreases |ops|
  {
    if k > 0 {
      assert forall i :: 0 <= i < k - 1 ==> ops[1..][i] == ops[i + 1];
      LegalSuffix(s[1..], ops[1..], k - 1);
      assert s[k..] == s[1..][k - 1..] && ops[k..] == ops[1..][k - 1..];
    } else {
      assert s[0..] == s && ops[0..] == ops;
    }
  }

  lemma RunIs(t: string, n: nat)
    requires n <= |t| && (forall i :: 0 <= i < n ==> IsValue(t[i])) && (n < |t| ==> !IsValue(t[n]))
    ensures Run(t) == n
  {
    RunIsMaximal(t);
  }

  lemma MaskLetters(m: string, i: nat)
    requires m == MASK && i < |m|
    ensures IsValue(m[i]) && !IsBreak(m[i]) && (m[i] == '[' <==> i == 0) && (m[i] == ']' <==> i == 9)
  {
    assert m[i] in {'[', 'R', 'E', 'D', 'A', 'C', 'T', ']'};
  }

  lemma MaskClosed(m: string)
    requires m == MASK
    ensures Closed(m)
  {
    forall i | 0 <= i < |m| ensures !IsBreak(m[i]) { MaskLetters(m, i); }
    MaskLetters(m, 9);
  }

  lemma MaskRun(t: string)
    requires MASK <= t && (|t| > |MASK| ==> !IsValue(t[|MASK|]))
    ensures IsMasked(t)
  {
    var m := MASK;
    forall i | 0 <= i < |m| ensures IsValue(t[i]) { MaskLetters(m, i); }
    RunIs(t, |m|);
  }

  /** A kept or fresh mask at the front of the script stands alone in the output. */
  lemma MaskStands(s: string, ops: seq<Edit>)
    requires Fits(s, ops) && Legal(s, ops) && ops != []
    requires if ops[0].Keep? then IsMasked(s) else ops[0].n == Run(s)
    ensures IsMasked(Apply(s, ops))
  {
    var t := Apply(s, ops);
    var n := Run(s);
    RunIsMaximal(s);
    if ops[0].Keep? {
      LegalSuffix(s, ops, |MASK|);
      KeepCopies(s, ops, |MASK|);
      assert t == MASK + Apply(s[n..], ops[n..]);
      DelimiterKept(s[n..], ops[n..]);
    } else {
      assert t == MASK + Apply(s[n..], ops[1..]);
      DelimiterKept(s[n..], ops[1..]);
    }
    MaskRun(t);
  }

  lemma DelimiterKept(s: string, ops: seq<Edit>)
    requires Fits(s, ops) && Legal(s, ops) && (s != "" ==> !IsValue(s[0]))
    ensures Apply(s, ops) != "" ==> !IsValue(Apply(s, ops)[0])
  {
  }

  /** Break-free and closed by a bracket, as every suffix of the mask is. */
  predicate Closed(m: string) {
    (forall i :: 0 <= i < |m| ==> !IsBreak(m[i])) && (m != "" ==> m[|m| - 1] == ']')
  }

  /** No prefix match begins inside a mask. */
  lemma {:induction false} MaskInert(q: Prefix, m: string, t: string)
    requires WellFormed(q) && Closed(m) && Clean(q, t)
    ensures Clean(q, m + t)
    decreases |m|
  {
    if m == "" {
      assert m + t == t;
    } else {
      MaskInert(q, m[1..], t);
      assert m + t == [m[0]] + (m[1..] + t);
      MaskUnmatched(q, m, t);
      CleanCons(q, m[0], m[1..] + t);
    }
  }

  lemma MaskUnmatched(q: Prefix, m: string, t: string)
    requires WellFormed(q) && m != "" && Closed(m)
    ensures PrefixEnd(q, m + t) == None
  {
    var u := m + t;
    if PrefixEnd(q, u).Some? {
      var e := PrefixEnd(q, u).value;
      PrefixEndSound(q, u);
      SpelledEndsInBreak(q, u[..e]);
      if |m| - 1 < e { SpelledBracketless(q, u[..e], |m| - 1); }
    }
  }

  /** The heart of the argument: a legal pass that guards `q` leaves a text clean for `q`. */
  lemma {:induction false} PassCleans(q: Prefix, s: string, ops: seq<Edit>)
    requires WellFormed(q) && Fits(s, ops) && Legal(s, ops) && Guarded(q, s, ops)
    ensures Clean(q, Apply(s, ops))
    decreases |ops|
  {
    var t := Apply(s, ops);
    if ops == [] {
      EmptyUnmatched(q);
    } else if ops[0].Mask? {
      PassCleans(q, s[ops[0].n..], ops[1..]);
      MaskClosed(MASK);
      MaskInert(q, MASK, Apply(s[ops[0].n..], ops[1..]));
    } else {
      PassCleans(q, s[1..], ops[1..]);
      HeadClean(q, s, ops);
      CleanCons(q, s[0], Apply(s[1..], ops[1..]));
    }
  }

  lemma EmptyUnmatched(q: Prefix)
    ensures PrefixEnd(q, "") == None
  {
  }

  lemma HeadClean(q: Prefix, s: string, ops: seq<Edit>)
    requires WellFormed(q) && Fits(s, ops) && Legal(s, ops) && ops != [] && GuardedHere(q, s, ops)
    ensures CleanHere(q, Apply(s, ops))
  {
    var t := Apply(s, ops);
    if PrefixEnd(q, t).Some? {
      var e := PrefixEnd(q, t).value;
      PrefixEndSound(q, t);
      forall i | 0 <= i < e ensures t[i] != '[' { SpelledBracketless(q, t[..e], i); }
      KeptPrefix(s, ops, e);
      LegalSuffix(s, ops, e);
      var s', ops' := s[e..], ops[e..];
      assert t[e..] == Apply(s', ops');
      assert ops' != [];
      assert IsValue(s'[0]) by { if ops'[0].Keep? { assert t[e..][0] == s'[0]; } }
      PrefixEndComplete(q, s, e);
      MaskStands(s', ops');
    }
  }
}
