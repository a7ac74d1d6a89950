/** The last pass: `\bAKIA[0-9A-Z]{16}\b` is replaced as a whole. */
module AccessKeyPass {
  import opened Wrappers
  import Patterns
  import SecretPatterns
  import opened RewritePass

  /** `[0-9A-Z]` */
  predicate IsKeyChar(c: char) {
    '0' <= c <= '9' || 'A' <= c <= 'Z'
  }

  /** The characters `\w` matches: Unicode's alphanumeric table is a parameter of the model, of
      which only this much is used. */
  ghost predicate IsWordClass(w: char -> bool) {
    (forall c :: IsKeyChar(c) ==> w(c)) && !w('[') && !w(']')
  }

  /** An access key at the front of `s`, where `prev` says whether a word character precedes. */
  predicate KeyAt(w: char -> bool, prev: bool, s: string) {
    && !prev && |s| >= 20 && s[..4] == "AKIA"
    && (forall i :: 4 <= i < 20 ==> IsKeyChar(s[i]))
    && (|s| > 20 ==> !w(s[20]))
  }

  /** No access key at any position of `s`. */
  predicate KeyFree(w: char -> bool, prev: bool, s: string)
    decreases |s|
  {
    !KeyAt(w, prev, s) && (s == "" || KeyFree(w, w(s[0]), s[1..]))
  }

  function KeyEdits(w: char -> bool, prev: bool, s: string): seq<Edit>
    decreases |s|
  {
    if s == "" then [] else
    if KeyAt(w, prev, s) then [Mask(20)] + KeyEdits(w, true, s[20..])
    else [Keep] + KeyEdits(w, w(s[0]), s[1..])
  }

  lemma {:induction false} KeyEditsTail(w: char -> bool, prev: bool, s: string)
    requires s != ""
    ensures KeyEdits(w, prev, s)[1..] ==
      if KeyAt(w, prev, s) then KeyEdits(w, true, s[20..]) else KeyEdits(w, w(s[0]), s[1..])
  {
  }

  lemma {:induction false} KeyFits(w: char -> bool, prev: bool, s: string)
    ensures Fits(s, KeyEdits(w, prev, s))
    decreases |s|
  {
    if s != "" {
      KeyEditsTail(w, prev, s);
      if KeyAt(w, prev, s) { KeyFits(w, true, s[20..]); } else { KeyFits(w, w(s[0]), s[1..]); }
    }
  }

  lemma KeyChars(w: char -> bool, prev: bool, s: string, i: nat)
    requires KeyAt(w, prev, s) && i < 20
    ensures IsKeyChar(s[i]) && (i == 0 ==> s[i] == 'A')
  {
    if i < 4 { assert s[i] == s[..4][i] == "AKIA"[i]; }
  }

  /** A key cannot reach over a closing bracket, so nothing is masked up to one nearby. */
  lemma {:induction false} KeptUpToBracket(w: char -> bool, prev: bool, s: string, m: nat)
    requires m < |s| && m < 20 && s[m] == ']'
    ensures AllKeep(KeyEdits(w, prev, s), m + 1)
    decreases m
  {
    if KeyAt(w, prev, s) { KeyChars(w, prev, s, m); }
    KeyEditsTail(w, prev, s);
    if m > 0 {
      var ops := KeyEdits(w, prev, s);
      KeptUpToBracket(w, w(s[0]), s[1..], m - 1);
      assert forall i :: 1 <= i < m + 1 ==> ops[i] == ops[1..][i - 1];
    }
  }

  lemma {:induction false} KeysAreLegal(w: char -> bool, prev: bool, s: string)
    ensures Fits(s, KeyEdits(w, prev, s)) && Legal(s, KeyEdits(w, prev, s))
    decreases |s|
  {
    KeyFits(w, prev, s);
    if s != "" {
      KeyEditsTail(w, prev, s);
      if KeyAt(w, prev, s) {
        KeyChars(w, prev, s, 0);
        KeysAreLegal(w, true, s[20..]);
      } else {
        KeysAreLegal(w, w(s[0]), s[1..]);
        if MASK <= s {
          MaskLetters(MASK, 9);
          KeptUpToBracket(w, prev, s, 9);
        }
      }
    }
  }

  lemma {:induction false} MaskedKeyStart(w: char -> bool, prev: bool, s: string, e: nat)
    requires AllKeep(KeyEdits(w, prev, s), e) && e < |KeyEdits(w, prev, s)| && KeyEdits(w, prev, s)[e].Mask?
    ensures e < |s| && s[e] == 'A'
    decreases e
  {
    var ops := KeyEdits(w, prev, s);
    KeyEditsTail(w, prev, s);
    if e > 0 {
      assert forall i :: 0 <= i < e ==> ops[1..][i] == ops[i + 1];
      assert ops[0].Keep?;
      MaskedKeyStart(w, w(s[0]), s[1..], e - 1);
    } else if KeyAt(w, prev, s) {
      KeyChars(w, prev, s, 0);
    }
  }

  lemma {:induction false} CleanIsGuardedFromKeys(q: Patterns.Prefix, w: char -> bool, prev: bool, s: string)
    requires Clean(q, s)
    ensures Fits(s, KeyEdits(w, prev, s)) && Guarded(q, s, KeyEdits(w, prev, s))
    decreases |s|
  {
    KeyFits(w, prev, s);
    if s != "" {
      KeyEditsTail(w, prev, s);
      var ops := KeyEdits(w, prev, s);
      if KeyAt(w, prev, s) {
        CleanTail(q, s, 20);
        CleanIsGuardedFromKeys(q, w, true, s[20..]);
      } else {
        CleanTail(q, s, 1);
        CleanIsGuardedFromKeys(q, w, w(s[0]), s[1..]);
        CleanHereGuardedFromKeys(q, w, prev, s);
      }
    }
  }

  lemma CleanHereGuardedFromKeys(q: Patterns.Prefix, w: char -> bool, prev: bool, s: string)
    requires Clean(q, s)
    ensures GuardedHere(q, s, KeyEdits(w, prev, s))
  {
    var ops := KeyEdits(w, prev, s);
    if Patterns.PrefixEnd(q, s).Some? {
      var e := Patterns.PrefixEnd(q, s).value;
      if AllKeep(ops, e) && e < |ops| && ops[e].Mask? {
        MaskedKeyStart(w, prev, s, e);
        MaskedIsCut(s[e..]);
      }
    }
  }

  /** Masking keys keeps a text clean for every prefixed pattern. */
  lemma KeyPassKeepsClean(q: Patterns.Prefix, w: char -> bool, s: string)
    requires SecretPatterns.WellFormed(q) && Clean(q, s)
    ensures Fits(s, KeyEdits(w, false, s)) && Clean(q, Apply(s, KeyEdits(w, false, s)))
  {
    KeysAreLegal(w, false, s);
    CleanIsGuardedFromKeys(q, w, false, s);
    PassCleans(q, s, KeyEdits(w, false, s));
  }

  lemma {:induction false} MaskHasNoKey(w: char -> bool, prev: bool, j: nat, t: string)
    requires IsWordClass(w) && j <= |MASK| && KeyFree(w, if j == |MASK| then prev else false, t)
    ensures KeyFree(w, prev, MASK[j..] + t)
    decreases |MASK| - j
  {
    var m := MASK;
    if j == |m| {
      assert m[j..] + t == t;
    } else {
      var u := m[j..] + t;
      assert u[1..] == m[j + 1..] + t && u[0] == m[j];
      MaskLetters(m, 9);
      if KeyAt(w, prev, u) {
        KeyChars(w, prev, u, 9 - j);
      }
      MaskHasNoKey(w, w(m[j]), j + 1, t);
    }
  }

  /** The pass leaves no access key: not in the kept text, not across a fresh mask. */
  lemma {:induction false} KeyPassFrees(w: char -> bool, prev: bool, out: bool, s: string)
    requires IsWordClass(w) && (out == prev || (s != "" ==> !w(s[0])))
    ensures Fits(s, KeyEdits(w, prev, s)) && KeyFree(w, out, Apply(s, KeyEdits(w, prev, s)))
    decreases |s|
  {
    KeyFits(w, prev, s);
    if s != "" {
      KeyEditsTail(w, prev, s);
      var ops := KeyEdits(w, prev, s);
      if KeyAt(w, prev, s) {
        KeyPassFrees(w, true, false, s[20..]);
        MaskHasNoKey(w, out, 0, Apply(s[20..], ops[1..]));
        assert MASK[0..] == MASK;
      } else {
        KeyPassFrees(w, w(s[0]), w(s[0]), s[1..]);
        NoFreshKey(w, prev, out, s);
        var t := Apply(s, ops);
        assert t[1..] == Apply(s[1..], ops[1..]);
      }
    }
  }

  lemma NoFreshKey(w: char -> bool, prev: bool, out: bool, s: string)
    requires IsWordClass(w) && (out == prev || (s != "" ==> !w(s[0])))
    requires s != "" && !KeyAt(w, prev, s) && Fits(s, KeyEdits(w, prev, s))
    ensures !KeyAt(w, out, Apply(s, KeyEdits(w, prev, s)))
  {
    var ops := KeyEdits(w, prev, s);
    var t := Apply(s, ops);
    if KeyAt(w, out, t) {
      forall i | 0 <= i < 20 ensures t[i] != '[' { KeyChars(w, out, t, i); }
      KeptPrefix(s, ops, 20);
      assert s[..4] == s[..20][..4] == t[..20][..4] == t[..4];
      forall i | 0 <= i < 20 ensures s[i] == t[i] { assert s[..20][i] == t[..20][i]; }
      KeyChars(w, out, t, 0);
      if |s| > 20 { AfterKeyKept(w, prev, s); }
    }
  }

  /** After twenty kept key characters the next edit keeps as well: a key needs a boundary. */
  lemma AfterKeyKept(w: char -> bool, prev: bool, s: string)
    requires IsWordClass(w) && |s| > 20 && AllKeep(KeyEdits(w, prev, s), 20) && IsKeyChar(s[19])
    requires Fits(s, KeyEdits(w, prev, s))
    ensures |Apply(s, KeyEdits(w, prev, s))| > 20 && Apply(s, KeyEdits(w, prev, s))[20] == s[20]
  {
    KeyEditsSuffix(w, prev, s, 20);
    KeepCopies(s, KeyEdits(w, prev, s), 20);
    assert KeyEdits(w, true, s[20..])[0].Keep?;
  }

  lemma {:induction false} KeyEditsSuffix(w: char -> bool, prev: bool, s: string, k: nat)
    requires 1 <= k <= |s| && AllKeep(KeyEdits(w, prev, s), k)
    ensures KeyEdits(w, prev, s)[k..] == KeyEdits(w, w(s[k - 1]), s[k..])
    decreases k
  {
    KeyEditsTail(w, prev, s);
    var ops := KeyEdits(w, prev, s);
    assert ops[0].Keep?;
    if k > 1 {
      assert forall i :: 0 <= i < k - 1 ==> ops[1..][i] == ops[i + 1];
      KeyEditsSuffix(w, w(s[0]), s[1..], k - 1);
      assert ops[k..] == ops[1..][k - 1..] && s[k..] == s[1..][k - 1..];
    }
  }

  /** Without a key there is nothing to do. */
  lemma {:induction false} KeyFreeIsFixed(w: char -> bool, prev: bool, s: string)
    requires KeyFree(w, prev, s)
    ensures Fits(s, KeyEdits(w, prev, s)) && Apply(s, KeyEdits(w, prev, s)) == s
    ensures forall j :: 0 <= j < |KeyEdits(w, prev, s)| ==> KeyEdits(w, prev, s)[j].Keep?
    decreases |s|
  {
    KeyFits(w, prev, s);
    if s != "" {
      KeyEditsTail(w, prev, s);
      KeyFreeIsFixed(w, w(s[0]), s[1..]);
      var ops := KeyEdits(w, prev, s);
      assert forall j :: 1 <= j < |ops| ==> ops[j] == ops[1..][j - 1];
    }
  }

  /** And with one, something is masked. */
  lemma {:induction false} KeyIsMasked(w: char -> bool, prev: bool, s: string)
    requires !KeyFree(w, prev, s)
    ensures exists j :: 0 <= j < |KeyEdits(w, prev, s)| && KeyEdits(w, prev, s)[j].Mask?
    decreases |s|
  {
    var ops := KeyEdits(w, prev, s);
    if KeyAt(w, prev, s) {
      assert ops[0].Mask?;
    } else {
      KeyEditsTail(w, prev, s);
      KeyIsMasked(w, w(s[0]), s[1..]);
      var j :| 0 <= j < |ops[1..]| && ops[1..][j].Mask?;
      assert ops[j + 1].Mask?;
    }
  }
}
