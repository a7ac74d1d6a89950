/** `EvidenceIngestor`: what `_redact` guarantees, and the bundle of ingested records. */
module Redaction {
  import opened Wrappers
  import opened Patterns
  import opened SecretPatterns
  import opened RewritePass
  import opened PrefixPass
  import opened AccessKeyPass
  import opened PassPieces
  import opened SecretForms
  import FirstSecret

  datatype SecretPattern = Prefixed(prefix: Prefix) | AccessKey

  /** `_SECRET_PATTERNS`, in order. */
  function SecretPatternList(): seq<SecretPattern> {
    [Prefixed(Bearer()), Prefixed(ApiKey()), Prefixed(Password()), AccessKey]
  }

  function EditsOf(w: char -> bool, pat: SecretPattern, s: string): (ops: seq<Edit>)
    ensures Fits(s, ops)
  {
    match pat
    case Prefixed(p) => ScanFits(p, None, s); Scan(p, s)
    case AccessKey => KeyFits(w, false, s); KeyEdits(w, false, s)
  }

  function Rewrite(w: char -> bool, pat: SecretPattern, s: string): string {
    Apply(s, EditsOf(w, pat, s))
  }

  /** The number of replacements `subn` reports. */
  function Count(ops: seq<Edit>): (n: nat)
    ensures n > 0 <==> MasksSome(ops)
  {
    if ops == [] then 0 else
    var n := Count(ops[1..]);
    MasksSomeStep(ops);
    if ops[0].Mask? then 1 + n else n
  }

  /** All passes of `pats` over `s`, in order. */
  function RewriteAll(w: char -> bool, pats: seq<SecretPattern>, s: string): string {
    if pats == [] then s else RewriteAll(w, pats[1..], Rewrite(w, pats[0], s))
  }

  function Redacted(w: char -> bool, content: string): string {
    RewriteAll(w, SecretPatternList(), content)
  }

  // ---------- What a text must not contain ----------

  /** `pat` matches somewhere in `s`. */
  ghost predicate Found(w: char -> bool, pat: SecretPattern, s: string) {
    match pat
    case Prefixed(p) => Occurs(p, s)
    case AccessKey => exists i :: 0 <= i <= |s| && KeyAt(w, i > 0 && w(s[i - 1]), s[i..])
  }

  ghost predicate FoundAny(w: char -> bool, s: string) {
    exists pat <- SecretPatternList() :: Found(w, pat, s)
  }

  /** Wherever `p` matches, the value it finds is the mask. */
  ghost predicate OnlyMaskedValues(p: Prefix, s: string) {
    forall i :: 0 <= i <= |s| ==> CleanHere(p, s[i..])
  }

  /** Every value a prefixed pattern finds is the mask, and no access key is found. */
  ghost predicate FindsOnlyMasks(w: char -> bool, s: string) {
    && OnlyMaskedValues(Bearer(), s) && OnlyMaskedValues(ApiKey(), s) && OnlyMaskedValues(Password(), s)
    && !Found(w, AccessKey, s)
  }

  lemma {:induction false} KeyFreeFrom(w: char -> bool, prev: bool, s: string)
    ensures KeyFree(w, prev, s) <==>
            forall i :: 0 <= i <= |s| ==> !KeyAt(w, if i == 0 then prev else w(s[i - 1]), s[i..])
    decreases |s|
  {
    assert s[0..] == s;
    if s != "" {
      KeyFreeFrom(w, w(s[0]), s[1..]);
      forall i | 0 < i <= |s|
        ensures KeyAt(w, w(s[i - 1]), s[i..]) ==
                KeyAt(w, if i - 1 == 0 then w(s[0]) else w(s[1..][i - 2]), s[1..][i - 1..])
      {
        assert s[1..][i - 1..] == s[i..];
      }
      if forall i :: 0 <= i <= |s| ==> !KeyAt(w, if i == 0 then prev else w(s[i - 1]), s[i..]) {
        forall i | 0 <= i <= |s[1..]| ensures !KeyAt(w, if i == 0 then w(s[0]) else w(s[1..][i - 1]), s[1..][i..]) {
          assert s[1..][i..] == s[i + 1..];
        }
      }
    }
  }

  lemma NoKeyIffFree(w: char -> bool, s: string)
    ensures KeyFree(w, false, s) <==> !Found(w, AccessKey, s)
  {
    KeyFreeFrom(w, false, s);
  }

  lemma FoundIsSecret(w: char -> bool, pat: SecretPattern, s: string)
    requires pat in SecretPatternList() && Found(w, pat, s)
    ensures HoldsSecret(w, s)
  {
    if pat.Prefixed? {
      var i :| 0 <= i <= |s| && PrefixEnd(pat.prefix, s[i..]).Some?;
      FirstSecret.MatchHoldsSecret(w, pat.prefix, s, i);
    } else {
      var i :| 0 <= i <= |s| && KeyAt(w, i > 0 && w(s[i - 1]), s[i..]);
      KeyIsAt(w, s, i);
      assert SecretAt(w, s, i, i, i + 20);
    }
  }

  /** Some pattern occurs exactly when the text holds a secret, written out. */
  lemma FoundAnyIffHeld(w: char -> bool, s: string)
    ensures FoundAny(w, s) <==> HoldsSecret(w, s)
  {
    if pat :| pat in SecretPatternList() && Found(w, pat, s) {
      FoundIsSecret(w, pat, s);
    }
    if i, a, b :| SecretAt(w, s, i, a, b) {
      if LabelledAt(s, i, a, b) {
        var q := LabelledIsMatch(s, i, a, b);
        assert Found(w, Prefixed(q), s) && Prefixed(q) in SecretPatternList();
      } else {
        KeyIsAt(w, s, i);
        assert Found(w, AccessKey, s) && AccessKey in SecretPatternList();
      }
    }
  }

  /** A text without secrets, written out, is one in which the patterns find only masks. */
  lemma SecretFreeIff(w: char -> bool, s: string)
    ensures SecretFree(w, s) <==> FindsOnlyMasks(w, s)
  {
    if SecretFree(w, s) {
      SecretFreeFindsMasks(w, s, Bearer());
      SecretFreeFindsMasks(w, s, ApiKey());
      SecretFreeFindsMasks(w, s, Password());
      if Found(w, AccessKey, s) {
        var i :| 0 <= i <= |s| && KeyAt(w, i > 0 && w(s[i - 1]), s[i..]);
        KeyIsAt(w, s, i);
        assert SecretAt(w, s, i, i, i + 20);
      }
    }
    if FindsOnlyMasks(w, s) {
      forall i, a, b | SecretAt(w, s, i, a, b) ensures s[a..b] == "[REDACTED]" { FoundSecretIsMask(w, s, i, a, b); }
    }
  }

  lemma SecretFreeFindsMasks(w: char -> bool, s: string, q: Prefix)
    requires SecretFree(w, s) && IsSecretPrefix(q)
    ensures OnlyMaskedValues(q, s)
  {
    forall i | 0 <= i <= |s| && PrefixEnd(q, s[i..]).Some? ensures CleanHere(q, s[i..]) {
      SecretFreeFindsMask(w, s, q, i);
    }
  }

  lemma {:induction false} SecretFreeFindsMask(w: char -> bool, s: string, q: Prefix, i: nat)
    requires SecretFree(w, s) && IsSecretPrefix(q) && i <= |s| && PrefixEnd(q, s[i..]).Some?
    ensures CleanHere(q, s[i..])
  {
    var a := i + PrefixEnd(q, s[i..]).value;
    MatchIsLabelled(q, s, i);
    ShownValueIsMask(w, s, i, a, a + Run(s[a..]));
    DropTwice(s, i, a);
    ReadsMask(s, a, a + Run(s[a..]));
  }

  lemma ShownValueIsMask(w: char -> bool, s: string, i: int, a: int, b: int)
    requires SecretFree(w, s) && LabelledAt(s, i, a, b)
    ensures s[a..b] == "[REDACTED]"
  {
    assert SecretAt(w, s, i, a, b);
  }

  lemma {:induction false} ReadsMask(s: string, a: nat, b: nat)
    requires a <= b <= |s| && b == a + Run(s[a..])
    ensures IsMasked(s[a..]) <==> s[a..b] == "[REDACTED]"
  {
    assert s[a..][..b - a] == s[a..b];
    if IsMasked(s[a..]) { MaskedIsCut(s[a..]); }
  }

  lemma FoundSecretIsMask(w: char -> bool, s: string, i: int, a: int, b: int)
    requires FindsOnlyMasks(w, s) && SecretAt(w, s, i, a, b)
    ensures s[a..b] == "[REDACTED]"
  {
    if LabelledAt(s, i, a, b) {
      var q := LabelledIsMatch(s, i, a, b);
      assert OnlyMaskedValues(q, s) && CleanHere(q, s[i..]);
      FoundValueIsMask(q, s, i, a, b);
    } else {
      KeyIsAt(w, s, i);
      assert Found(w, AccessKey, s);
    }
  }

  lemma {:induction false} FoundValueIsMask(q: Prefix, s: string, i: nat, a: nat, b: nat)
    requires i <= a <= b <= |s| && PrefixEnd(q, s[i..]) == Some(a - i) && b == a + Run(s[a..])
    requires CleanHere(q, s[i..])
    ensures s[a..b] == "[REDACTED]"
  {
    CleanMatch(q, s[i..], a - i);
    DropTwice(s, i, a);
    ReadsMask(s, a, b);
  }

  lemma {:induction false} CleanMatch(q: Prefix, t: string, e: nat)
    requires e <= |t| && PrefixEnd(q, t) == Some(e) && CleanHere(q, t)
    ensures IsMasked(t[e..])
  {
  }

  lemma DropTwice(s: string, i: nat, a: nat)
    requires i <= a <= |s|
    ensures s[i..][a - i..] == s[a..]
  {
  }

  lemma EmptyIsSecretFree(w: char -> bool)
    ensures SecretFree(w, "")
  {
  }

  /** For instance. */
  lemma PasswordIsASecret(w: char -> bool)
    ensures !SecretFree(w, "password" + ": " + "hunter2")
  {
    var named, v := "password" + ": ", "hunter2";
    PasswordIsNamed("password", ": ");
    LabelledIsSecret(w, named, v);
    assert (named + v)[|named|..|named + v|] == v;
  }

  lemma PasswordIsNamed(word: string, mark: string)
    requires word == "password" && mark == ": "
    ensures IsLabel(word + mark)
  {
    var named := word + mark;
    assert named[..8] == word && named[8..] == mark && mark[0] in ":=" && mark[..0] == "" && mark[1..] == " ";
  }

  lemma LabelledIsSecret(w: char -> bool, named: string, v: string)
    requires IsLabel(named) && v != "" && forall k :: 0 <= k < |v| ==> IsValueChar(v[k])
    ensures SecretAt(w, named + v, 0, |named|, |named + v|)
  {
    assert (named + v)[0..|named|] == named;
  }

  lemma {:induction false} SpellsWord(w: string, rest: Prefix, t: string)
    requires (forall c <- w :: IsLower(c)) && Spells(rest, t)
    ensures Spells(Word(w) + rest, w + t)
  {
    if w == "" {
      assert Word(w) + rest == rest && w + t == t;
    } else {
      SpellsWord(w[1..], rest, t);
      assert (Word(w) + rest)[1..] == Word(w[1..]) + rest && (w + t)[1..] == w[1..] + t;
    }
  }

  // ---------- The main results ----------

  lemma Unroll(w: char -> bool, s: string)
    ensures var a := Rewrite(w, Prefixed(Bearer()), s);
            var b := Rewrite(w, Prefixed(ApiKey()), a);
            var c := Rewrite(w, Prefixed(Password()), b);
            Redacted(w, s) == Rewrite(w, AccessKey, c)
  {
    var all := SecretPatternList();
    var a := Rewrite(w, Prefixed(Bearer()), s);
    var b := Rewrite(w, Prefixed(ApiKey()), a);
    var c := Rewrite(w, Prefixed(Password()), b);
    assert all[1..] == [Prefixed(ApiKey()), Prefixed(Password()), AccessKey];
    assert all[1..][1..] == [Prefixed(Password()), AccessKey];
    assert all[1..][1..][1..] == [AccessKey];
    assert RewriteAll(w, [AccessKey], c) == Rewrite(w, AccessKey, c) by { assert [AccessKey][1..] == []; }
    assert RewriteAll(w, all[1..][1..], b) == RewriteAll(w, [AccessKey], c);
    assert RewriteAll(w, all[1..], a) == RewriteAll(w, all[1..][1..], b);
  }

  lemma RewriteCleans(w: char -> bool, p: Prefix, q: Prefix, s: string)
    requires WellFormed(p) && WellFormed(q) && (q == p || Clean(q, s))
    ensures Clean(q, Rewrite(w, Prefixed(p), s))
  {
    ScanCleans(p, q, s);
  }

  /** Each pass cleans its own pattern, and the passes after it keep it so. */
  lemma PassesClean(w: char -> bool, p: Prefix, q: Prefix, r: Prefix, s: string)
    requires WellFormed(p) && WellFormed(q) && WellFormed(r)
    ensures var a := Rewrite(w, Prefixed(p), s);
            var b := Rewrite(w, Prefixed(q), a);
            var c := Rewrite(w, Prefixed(r), b);
            var d := Rewrite(w, AccessKey, c);
            Clean(p, d) && Clean(q, d) && Clean(r, d)
  {
    var a := Rewrite(w, Prefixed(p), s);
    var b := Rewrite(w, Prefixed(q), a);
    var c := Rewrite(w, Prefixed(r), b);
    RewriteCleans(w, p, p, s);
    RewriteCleans(w, q, p, a);
    RewriteCleans(w, q, q, a);
    RewriteCleans(w, r, p, b);
    RewriteCleans(w, r, q, b);
    RewriteCleans(w, r, r, b);
    KeyPassKeepsClean(p, w, c);
    KeyPassKeepsClean(q, w, c);
    KeyPassKeepsClean(r, w, c);
  }

  lemma RedactedIsKeyFree(w: char -> bool, s: string)
    requires IsWordClass(w)
    ensures !Found(w, AccessKey, Redacted(w, s))
  {
    Unroll(w, s);
    var a := Rewrite(w, Prefixed(Bearer()), s);
    var b := Rewrite(w, Prefixed(ApiKey()), a);
    var c := Rewrite(w, Prefixed(Password()), b);
    KeyPassFrees(w, false, false, c);
    NoKeyIffFree(w, Redacted(w, s));
  }

  lemma RedactedFindsOnlyMasks(w: char -> bool, s: string)
    requires IsWordClass(w)
    ensures FindsOnlyMasks(w, Redacted(w, s))
  {
    PrefixesWellFormed();
    PassesClean(w, Bearer(), ApiKey(), Password(), s);
    Unroll(w, s);
    CleanEverywhere(Bearer(), Redacted(w, s));
    CleanEverywhere(ApiKey(), Redacted(w, s));
    CleanEverywhere(Password(), Redacted(w, s));
    RedactedIsKeyFree(w, s);
  }

  /** For every text, and although each pass rewrites what earlier passes wrote, the result shows
      `[REDACTED]` wherever a secret would be. */
  lemma RedactedIsSecretFree(w: char -> bool, s: string)
    requires IsWordClass(w)
    ensures SecretFree(w, Redacted(w, s))
  {
    RedactedFindsOnlyMasks(w, s);
    SecretFreeIff(w, Redacted(w, s));
  }

  lemma RewriteFixed(w: char -> bool, p: Prefix, s: string)
    requires OnlyMaskedValues(p, s)
    ensures Rewrite(w, Prefixed(p), s) == s
  {
    CleanEverywhere(p, s);
    assert s[0..] == s;
    ScanMasksOnlyValues(p, None, s, 0, s, 0);
    CleanIsFixed(p, s, EditsOf(w, Prefixed(p), s));
  }

  /** A text without secrets is left exactly as it is. */
  lemma SecretFreeIsFixed(w: char -> bool, s: string)
    requires SecretFree(w, s)
    ensures Redacted(w, s) == s
  {
    SecretFreeIff(w, s);
    Unroll(w, s);
    RewriteFixed(w, Bearer(), s);
    RewriteFixed(w, ApiKey(), s);
    RewriteFixed(w, Password(), s);
    NoKeyIffFree(w, s);
    KeyFreeIsFixed(w, false, s);
  }

  /** Redaction is idempotent on its text. */
  lemma RedactionIdempotent(w: char -> bool, s: string)
    requires IsWordClass(w)
    ensures Redacted(w, Redacted(w, s)) == Redacted(w, s)
  {
    RedactedIsSecretFree(w, s);
    SecretFreeIsFixed(w, Redacted(w, s));
  }

  /** A pass reports a replacement exactly when its pattern occurs, and otherwise copies. */
  lemma CountIffFound(w: char -> bool, pat: SecretPattern, s: string)
    ensures Count(EditsOf(w, pat, s)) > 0 <==> Found(w, pat, s)
    ensures !Found(w, pat, s) ==> Rewrite(w, pat, s) == s
  {
    var ops := EditsOf(w, pat, s);
    if pat.Prefixed? {
      MasksIffOccurs(pat.prefix, s);
    } else {
      NoKeyIffFree(w, s);
      if KeyFree(w, false, s) { KeyFreeIsFixed(w, false, s); } else { KeyIsMasked(w, false, s); }
    }
    if !MasksSome(ops) { NoMasksCopies(s, ops); }
  }

  /** A pass is the rewriting that redaction does for the pattern. */
  lemma PassIsRewrite(w: char -> bool, q: Prefix, s: string)
    ensures Pass(q, s) == Rewrite(w, Prefixed(q), s)
  {
    OutIsApplied(q, None, s);
  }

  /** Redaction is these passes, then the access key pass. */
  lemma RedactedIsPasses(w: char -> bool, s: string)
    ensures Redacted(w, s) == Rewrite(w, AccessKey, Passes(Prefixes(), s))
  {
    var qs := Prefixes();
    var a := Pass(Bearer(), s);
    var b := Pass(ApiKey(), a);
    PassIsRewrite(w, Bearer(), s);
    PassIsRewrite(w, ApiKey(), a);
    PassIsRewrite(w, Password(), b);
    Unroll(w, s);
    assert qs[1..] == [ApiKey(), Password()] && qs[1..][1..] == [Password()] && qs[1..][1..][1..] == [];
    assert Passes(qs[1..], a) == Passes(qs[1..][1..], b);
  }

  /** The first secret of a text is masked as a whole, and all that comes before it is kept. */
  lemma RedactedMasksFirst(w: char -> bool, s: string)
    requires IsWordClass(w)
    ensures MasksFirst(w, s, Redacted(w, s))
  {
    RedactedIsPasses(w, s);
    forall i, a, b | FirstSecretAt(w, s, i, a, b) ensures MaskedAt(s, a, b, Redacted(w, s)) {
      var y := FirstSecret.FirstSecretIsMasked(w, s, i, a, b);
      MaskIsShown(s, a, b, "[REDACTED]", y, Redacted(w, s));
    }
  }

  lemma MaskIsShown(s: string, a: int, b: int, mask: string, y: string, o: string)
    requires 0 <= a <= b <= |s| && mask == "[REDACTED]" && o == s[..a] + (mask + y)
    requires FirstSecret.SameStart(s[b..], y)
    ensures MaskedAt(s, a, b, o)
  {
    assert |mask| == 10 && o == (s[..a] + mask) + y;
  }

  /** `_redact`: the flag is raised exactly when the original content holds a secret, and only then
      does the text change at all; the first secret is masked and what comes before it kept. */
  method Redact(w: char -> bool, content: string) returns (sanitized: string, detected: bool)
    requires IsWordClass(w)
    ensures sanitized == Redacted(w, content)
    ensures detected <==> HoldsSecret(w, content)
    ensures !detected ==> sanitized == content
    ensures SecretFree(w, sanitized)
    ensures MasksFirst(w, content, sanitized)
  {
    sanitized := content;
    detected := false;
    var pats := SecretPatternList();
    assert pats[0..] == pats;
    for k := 0 to |pats|
      invariant RewriteAll(w, pats[k..], sanitized) == Redacted(w, content)
      invariant detected <==> exists j :: 0 <= j < k && Found(w, pats[j], content)
      invariant !detected ==> sanitized == content
    {
      assert pats[k..][1..] == pats[k + 1..];
      CountIffFound(w, pats[k], sanitized);
      var ops := EditsOf(w, pats[k], sanitized);
      sanitized := Apply(sanitized, ops);
      detected := detected || Count(ops) > 0;
    }
    assert detected <==> exists j :: 0 <= j < |pats| && Found(w, pats[j], content);
    FoundAnyIffHeld(w, content);
    RedactedIsSecretFree(w, content);
    RedactedMasksFirst(w, content);
  }
}
