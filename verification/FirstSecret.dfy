/** The first secret of a text: up to it the passes keep everything, and it is masked. */
module FirstSecret {
  import opened Wrappers
  import opened Patterns
  import opened SecretPatterns
  import opened RewritePass
  import opened PrefixPass
  import opened PassPieces
  import opened ValuesInPass
  import opened AccessKeyPass
  import opened SecretForms

  /** Both are empty, or they begin alike. */
  predicate SameStart(t: string, u: string) {
    if t == "" then u == "" else u != "" && u[0] == t[0]
  }

  // ---------- What no label contains ----------

  /** Nowhere in a text of `q` does a character of class `y` come right after one of class `x`. */
  ghost predicate Foreign(q: Prefix, x: CharClass, y: CharClass)
    requires |q| >= 2
  {
    || (forall k :: 1 <= k < |q| ==> Apart(q[k].cls, y))
    || (Apart(q[1].cls, y) && forall k :: 1 <= k < |q| ==> Apart(q[k].cls, x))
  }

  lemma ForeignPair(q: Prefix, t: string, j: nat, x: CharClass, y: CharClass)
    requires WellFormed(q) && Spells(q, t) && Foreign(q, x, y) && j + 1 < |t|
    ensures !In(t[j], x) || !In(t[j + 1], y)
  {
    var p, u := q[1..], t[1..];
    assert Spells(p, u) && In(u[0], p[0].cls);
    if forall k :: 1 <= k < |q| ==> Apart(q[k].cls, y) {
      SpelledAvoids(p, u, y, j);
    } else if j > 0 {
      SpelledAvoids(p, u, x, j - 1);
    } else if In(t[1], y) {
      ApartIsDisjoint(q[1].cls, y, t[1]);
    }
  }

  ghost predicate Avoids(q: Prefix, c: Lower) {
    forall k :: 1 <= k < |q| ==> Apart(q[k].cls, Letter(c))
  }

  lemma BearerAvoids(c: Lower)
    requires c == 'p' || c == 'k'
    ensures Avoids(Bearer(), c)
  {
    var p, v, w := Bearer(), "authorization", "bearer";
    assert c !in v && c !in w;
    forall i | 1 <= i < |p| ensures Apart(p[i].cls, Letter(c)) {
      if i < 13 {
        assert p[i] == One(Letter(v[i]));
      } else if 16 <= i < 22 {
        assert p[16 + (i - 16)] == One(Letter(w[i - 16]));
      }
    }
  }

  lemma ApiKeyAvoids(c: Lower)
    requires c == 'u' || c == 'a'
    ensures Avoids(ApiKey(), c)
  {
    var p := ApiKey();
    assert p[1] == One(Letter('p')) && p[2] == One(Letter('i'));
    assert p[4] == One(Letter('k')) && p[5] == One(Letter('e')) && p[6] == One(Letter('y'));
  }

  lemma PasswordAvoids(c: Lower)
    requires c == 'u' || c == 'k' || c == 'p'
    ensures Avoids(Password(), c)
  {
    var w := "password";
    assert forall j :: 1 <= j < |w| ==> w[j] != c;
  }

  lemma OthersAreForeign(q: Prefix, r: Prefix)
    requires IsSecretPrefix(q) && IsSecretPrefix(r) && q != r
    ensures |q| >= 2 && |r| >= 2 && Foreign(q, r[0].cls, r[1].cls)
  {
    FirstLetters();
    BearerAvoids('p');
    ApiKeyAvoids('u');
    ApiKeyAvoids('a');
    PasswordAvoids('u');
    PasswordAvoids('p');
  }

  lemma FirstLetters()
    ensures |Bearer()| >= 2 && Bearer()[0] == One(Letter('a')) && Bearer()[1] == One(Letter('u'))
    ensures |ApiKey()| >= 2 && ApiKey()[0] == One(Letter('a')) && ApiKey()[1] == One(Letter('p'))
    ensures |Password()| >= 2 && Password()[0] == One(Letter('p')) && Password()[1] == One(Letter('a'))
  {
  }

  lemma KeysAreForeign(q: Prefix)
    requires IsSecretPrefix(q)
    ensures |q| >= 2 && Foreign(q, Letter('a'), Letter('k'))
  {
    FirstLetters();
    BearerAvoids('k');
    ApiKeyAvoids('a');
    PasswordAvoids('k');
  }

  // ---------- Matches that do not begin before a secret ----------

  /** Whether a match begins in `a` does not depend on what follows `c`, if no prefix reaches over `c`. */
  lemma {:induction false} StillNone(q: Prefix, a: string, c: string, u: string, u': string, x: CharClass, y: CharClass)
    requires WellFormed(q) && Foreign(q, x, y) && |c| >= 2 && In(c[0], x) && In(c[1], y)
    requires PrefixEnd(q, a + (c + u)).None? && (StartsValue(u') ==> StartsValue(u))
    ensures PrefixEnd(q, a + (c + u')).None?
  {
    var s := a + (c + u');
    if PrefixEnd(q, s).Some? {
      var e := PrefixEnd(q, s).value;
      PrefixEndSound(q, s);
      if e <= |a + c| {
        LocalNone(q, a, c, u, u', e);
      } else {
        assert s[..e][|a|] == c[0] && s[..e][|a| + 1] == c[1];
        ForeignPair(q, s[..e], |a|, x, y);
      }
    }
  }

  lemma {:induction false} LocalNone(q: Prefix, a: string, c: string, u: string, u': string, e: nat)
    requires WellFormed(q) && PrefixEnd(q, a + (c + u')) == Some(e) && e <= |a + c|
    requires StartsValue(u') ==> StartsValue(u)
    ensures PrefixEnd(q, a + (c + u)).Some?
  {
    Assoc(a, c, u);
    Assoc(a, c, u');
    PrefixEndSound(q, a + (c + u'));
    assert e == |a + c| ==> ((a + c) + u')[e] == u'[0];
    MatchIsLocal(q, a + c, u', u, e);
  }

  /** The same about the pattern whose own label `m` is. */
  lemma {:induction false} StillNoneOwn(q: Prefix, a: string, m: string, u: string, u': string)
    requires WellFormed(q) && Spells(q, m) && StartsValue(u) && StartsValue(u') && a != ""
    requires PrefixEnd(q, a + (m + u)).None?
    ensures PrefixEnd(q, a + (m + u')).None?
  {
    var s := a + (m + u');
    if PrefixEnd(q, s).Some? {
      var e := PrefixEnd(q, s).value;
      if e <= |a + m| {
        LocalNone(q, a, m, u, u', e);
      } else {
        assert s[|a|..] == m + u';
        OwnMatch(q, m, u');
        NoOverlap(q, s, |a|);
      }
    }
  }

  lemma {:induction false} OwnMatch(q: Prefix, m: string, u: string)
    requires WellFormed(q) && Spells(q, m) && StartsValue(u)
    ensures PrefixEnd(q, m + u) == Some(|m|) && |m| >= 2 && IsBreak(m[|m| - 1])
  {
    assert (m + u)[..|m|] == m && (m + u)[|m|] == u[0];
    PrefixEndComplete(q, m + u, |m|);
    PrefixShape(q, m + u);
    assert (m + u)[|m| - 1] == m[|m| - 1];
  }

  lemma {:induction false} NoneBeforeStill(q: Prefix, pre: string, c: string, u: string, u': string, x: CharClass,
                                           y: CharClass)
    requires WellFormed(q) && Foreign(q, x, y) && |c| >= 2 && In(c[0], x) && In(c[1], y)
    requires NoMatchBefore(q, |pre|, pre + (c + u)) && (StartsValue(u') ==> StartsValue(u))
    ensures NoMatchBefore(q, |pre|, pre + (c + u'))
  {
    forall i | 0 <= i < |pre| ensures PrefixEnd(q, (pre + (c + u'))[i..]).None? {
      assert (pre + (c + u))[i..] == pre[i..] + (c + u) && (pre + (c + u'))[i..] == pre[i..] + (c + u');
      StillNone(q, pre[i..], c, u, u', x, y);
    }
  }

  lemma {:induction false} NoneBeforeLabelStill(q: Prefix, r: Prefix, pre: string, m: string, u: string, u': string)
    requires IsSecretPrefix(q) && IsSecretPrefix(r) && Spells(r, m) && StartsValue(u) && StartsValue(u')
    requires NoMatchBefore(q, |pre|, pre + (m + u))
    ensures NoMatchBefore(q, |pre|, pre + (m + u'))
  {
    SecretPrefixWellFormed(q);
    SecretPrefixWellFormed(r);
    if q == r {
      forall i | 0 <= i < |pre| ensures PrefixEnd(q, (pre + (m + u'))[i..]).None? {
        assert (pre + (m + u))[i..] == pre[i..] + (m + u) && (pre + (m + u'))[i..] == pre[i..] + (m + u');
        StillNoneOwn(q, pre[i..], m, u, u');
      }
    } else {
      OthersAreForeign(q, r);
      OwnMatch(r, m, u);
      LabelBegins(r, m);
      NoneBeforeStill(q, pre, m, u, u', r[0].cls, r[1].cls);
    }
  }

  lemma LabelBegins(r: Prefix, m: string)
    requires WellFormed(r) && Spells(r, m) && |m| >= 2
    ensures In(m[0], r[0].cls) && In(m[1], r[1].cls)
  {
    assert Spells(r[1..], m[1..]) && m[1..][0] == m[1];
  }

  /** No match of another pattern begins in a label. */
  lemma {:induction false} LabelUnbegun(q: Prefix, r: Prefix, m: string, u: string)
    requires IsSecretPrefix(q) && IsSecretPrefix(r) && q != r && Spells(r, m) && StartsValue(u)
    ensures NoMatchBefore(q, |m|, m + u)
  {
    SecretPrefixWellFormed(q);
    SecretPrefixWellFormed(r);
    OthersAreForeign(r, q);
    OwnMatch(r, m, u);
    forall j | 0 <= j < |m| ensures PrefixEnd(q, (m + u)[j..]).None? {
      if PrefixEnd(q, (m + u)[j..]).Some? {
        MatchBegins(q, m + u, j);
        if j + 1 < |m| { ForeignPair(r, m, j, q[0].cls, q[1].cls); }
      }
    }
  }

  lemma MatchBegins(q: Prefix, s: string, j: nat)
    requires WellFormed(q) && j <= |s| && PrefixEnd(q, s[j..]).Some?
    ensures j + 1 < |s| && In(s[j], q[0].cls) && !IsBreak(s[j]) && In(s[j + 1], q[1].cls)
  {
    var u := s[j..];
    PrefixShape(q, u);
    PrefixEndSound(q, u);
    LabelBegins(q, u[..PrefixEnd(q, u).value]);
  }

  // ---------- One pass ----------

  ghost predicate AllValue(v: string) {
    forall i :: 0 <= i < |v| ==> IsValue(v[i])
  }

  /** A pass keeps where a value ends. */
  lemma {:induction false} ValueStays(q: Prefix, hold: Option<nat>, v: string, t: string, u: string)
    returns (v': string, t': string)
    requires WellFormed(q) && u == v + t && AllValue(v) && EndsValue(t) && Pending(hold, u)
    ensures Out(q, hold, u) == v' + t' && AllValue(v') && (v' == "" <==> v == "") && SameStart(t, t')
    decreases |v|, if hold.None? then 1 else 0
  {
    if v == "" {
      assert u == t;
      v', t' := "", Out(q, hold, t);
      FirstIsKept(q, t);
      if hold.Some? { OutHolds(q, hold.value, t); }
    } else if hold == Some(0) {
      ValueRun(v, t);
      OutMasks(q, u, |v|);
      MaskIsValue();
      FirstIsKept(q, t);
      v', t' := MASK, Pass(q, t);
    } else if hold.None? && PrefixEnd(q, u).Some? {
      OutMatches(q, u);
      v', t' := ValueStays(q, PrefixEnd(q, u), v, t, u);
    } else {
      var hold' := if hold.None? then None else Some(hold.value - 1);
      Uncons(v, t);
      var v1;
      v1, t' := ValueStays(q, hold', v[1..], t, u[1..]);
      v' := [u[0]] + v1;
      Assoc([u[0]], v1, t');
    }
  }

  /** The pass of the label's own pattern masks the value, the other passes make a value of it. */
  lemma {:induction false} LabelledPass(q: Prefix, r: Prefix, pre: string, m: string, v: string, t: string)
    returns (v': string, t': string)
    requires IsSecretPrefix(q) && IsSecretPrefix(r) && Spells(r, m) && IsValueText(v) && EndsValue(t)
    requires NoMatchBefore(q, |pre|, pre + (m + (v + t)))
    ensures Pass(q, pre + (m + (v + t))) == pre + (m + (v' + t')) && IsValueText(v') && SameStart(t, t')
    ensures q == r || v == MASK ==> v' == MASK
  {
    var u := v + t;
    SecretPrefixWellFormed(q);
    ValueRun(v, t);
    MaskIsValue();
    FirstIsKept(q, t);
    UnmatchedKept(q, pre + (m + u), pre, m + u);
    if q == r {
      OwnMatch(r, m, u);
      MaskedFrom(q, m + u, m, u, |m|);
      v', t' := MASK, Pass(q, t);
    } else {
      LabelUnbegun(q, r, m, u);
      UnmatchedKept(q, m + u, m, u);
      if v == MASK {
        MaskIsKept(q, u);
        v', t' := MASK, Pass(q, t);
      } else {
        v', t' := ValueStays(q, None, v, t, u);
      }
    }
  }

  lemma {:induction false} LabelledPasses(qs: seq<Prefix>, r: Prefix, pre: string, m: string, v: string, t: string)
    returns (v': string, t': string)
    requires (forall q <- qs :: IsSecretPrefix(q)) && IsSecretPrefix(r)
    requires Spells(r, m) && IsValueText(v) && EndsValue(t)
    requires forall q <- qs :: NoMatchBefore(q, |pre|, pre + (m + (v + t)))
    ensures Passes(qs, pre + (m + (v + t))) == pre + (m + (v' + t')) && IsValueText(v') && SameStart(t, t')
    ensures r in qs || v == MASK ==> v' == MASK
  {
    if qs == [] {
      v', t' := v, t;
    } else {
      var v1, t1 := LabelledPass(qs[0], r, pre, m, v, t);
      forall q | q in qs[1..] ensures NoMatchBefore(q, |pre|, pre + (m + (v1 + t1))) {
        NoneBeforeLabelStill(q, r, pre, m, v + t, v1 + t1);
      }
      v', t' := LabelledPasses(qs[1..], r, pre, m, v1, t1);
    }
  }

  // ---------- The passes around an access key ----------

  ghost predicate IsKeyText(key: string) {
    |key| == 20 && key[..4] == "AKIA" && forall i :: 0 <= i < 20 ==> IsKeyChar(key[i])
  }

  /** A key has no break inside, so no value begins before its end. */
  lemma {:induction false} KeyIsKept(q: Prefix, key: string, t: string) returns (t': string)
    requires WellFormed(q) && IsKeyText(key)
    ensures Pass(q, key + t) == key + t' && SameStart(t, t')
  {
    var u, ops := key + t, Scan(q, key + t);
    var k := if t == "" then 20 else 21;
    ScanMasksRuns(false, q, None, u);
    FirstEditKeeps(q, u);
    assert forall i :: 0 <= i < 20 ==> u[i] == key[i];
    KeptUntilBreak(false, u, ops, k);
    KeepCopies(u, ops, k);
    OutIsApplied(q, None, u);
    t' := t[..k - 20] + Apply(u[k..], ops[k..]);
    assert u[..k] == key + t[..k - 20];
    Assoc(key, t[..k - 20], Apply(u[k..], ops[k..]));
  }

  lemma {:induction false} KeyPasses(qs: seq<Prefix>, pre: string, key: string, t: string) returns (t': string)
    requires (forall q <- qs :: IsSecretPrefix(q)) && IsKeyText(key)
    requires forall q <- qs :: NoMatchBefore(q, |pre|, pre + (key + t))
    ensures Passes(qs, pre + (key + t)) == pre + (key + t') && SameStart(t, t')
  {
    if qs == [] {
      t' := t;
    } else {
      SecretPrefixWellFormed(qs[0]);
      UnmatchedKept(qs[0], pre + (key + t), pre, key + t);
      var t1 := KeyIsKept(qs[0], key, t);
      forall q | q in qs[1..] ensures NoMatchBefore(q, |pre|, pre + (key + t1)) {
        SecretPrefixWellFormed(q);
        KeysAreForeign(q);
        assert key[0] == key[..4][0] && key[1] == key[..4][1];
        NoneBeforeStill(q, pre, key, t, t1, Letter('a'), Letter('k'));
      }
      t' := KeyPasses(qs[1..], pre, key, t1);
    }
  }

  // ---------- The access key pass ----------

  /** What the last pass makes of `s`, `prev` saying whether a word character comes before. */
  function KeyPass(w: char -> bool, prev: bool, s: string): string {
    KeyFits(w, prev, s);
    Apply(s, KeyEdits(w, prev, s))
  }

  lemma KeyPassSteps(w: char -> bool, prev: bool, s: string)
    requires s != ""
    ensures KeyPass(w, prev, s) ==
            if KeyAt(w, prev, s) then MASK + KeyPass(w, true, s[20..]) else [s[0]] + KeyPass(w, w(s[0]), s[1..])
  {
    KeyFits(w, prev, s);
    KeyEditsTail(w, prev, s);
  }

  predicate Precedes(w: char -> bool, prev: bool, s: string, i: nat)
    requires i <= |s|
  {
    if i == 0 then prev else w(s[i - 1])
  }

  /** Text in which no access key begins is kept. */
  lemma {:induction false} KeylessKept(w: char -> bool, prev: bool, s: string, a: string, b: string)
    requires s == a + b && forall i :: 0 <= i < |a| ==> !KeyAt(w, Precedes(w, prev, s, i), s[i..])
    ensures KeyPass(w, prev, s) == a + KeyPass(w, Precedes(w, prev, s, |a|), b)
    decreases |a|
  {
    if a == "" {
      assert s == b;
    } else {
      Uncons(a, b);
      assert s[0..] == s && !KeyAt(w, Precedes(w, prev, s, 0), s[0..]);
      KeyPassSteps(w, prev, s);
      forall i | 0 <= i < |a| - 1 ensures !KeyAt(w, Precedes(w, w(s[0]), s[1..], i), s[1..][i..]) {
        assert s[1..][i..] == s[i + 1..] && !KeyAt(w, Precedes(w, prev, s, i + 1), s[i + 1..]);
      }
      KeylessKept(w, w(s[0]), s[1..], a[1..], b);
      Uncons(a, KeyPass(w, Precedes(w, prev, s, |a|), b));
    }
  }

  lemma KeylessBefore(w: char -> bool, s: string, a: string, b: string)
    requires s == a + b && forall i :: 0 <= i < |a| ==> !AccessKeyAt(w, s, i)
    ensures KeyPass(w, false, s) == a + KeyPass(w, Precedes(w, false, s, |a|), b)
  {
    forall i | 0 <= i < |a| ensures !KeyAt(w, Precedes(w, false, s, i), s[i..]) { KeyIsAt(w, s, i); }
    KeylessKept(w, false, s, a, b);
  }

  /** A text that does not begin with a capital a keeps its first character. */
  lemma StartKept(w: char -> bool, prev: bool, t: string)
    requires t != "" ==> t[0] != 'A'
    ensures SameStart(t, KeyPass(w, prev, t))
  {
    if t != "" {
      if KeyAt(w, prev, t) { KeyChars(w, prev, t, 0); }
      KeyPassSteps(w, prev, t);
    } else {
      KeyFits(w, prev, t);
    }
  }

  /** A key that ends before both texts part is a key in both. */
  lemma KeyIsLocal(w: char -> bool, s: string, z: string, i: int, n: nat)
    requires AccessKeyAt(w, z, i) && i + 20 < n <= |s| && n <= |z| && s[..n] == z[..n]
    ensures AccessKeyAt(w, s, i)
  {
    assert forall k :: 0 <= k < n ==> s[k] == s[..n][k] == z[k];
    assert s[i..i + 4] == s[..n][i..i + 4] == z[i..i + 4];
  }

  lemma KeyCharsAt(w: char -> bool, z: string, i: int, k: int)
    requires AccessKeyAt(w, z, i) && i <= k < i + 20
    ensures IsKeyChar(z[k]) && (k == i ==> z[k] == 'A') && (k == i + 1 ==> z[k] == 'K')
  {
    if k < i + 4 { assert z[k] == z[i..i + 4][k - i]; }
    KeyCharIsListed(z[k]);
  }

  /** Behind a label whose value is masked, no access key has come about. */
  lemma {:induction false} NoKeyUpToMask(w: char -> bool, r: Prefix, pre: string, m: string, u: string, y: string,
                                         i: nat)
    requires IsSecretPrefix(r) && Spells(r, m) && StartsValue(u)
    requires forall k :: 0 <= k < |pre| ==> !AccessKeyAt(w, pre + (m + u), k)
    requires i < |pre| + |m| + |MASK|
    ensures !AccessKeyAt(w, pre + (m + (MASK + y)), i)
  {
    var z, n := pre + (m + (MASK + y)), |pre| + |m|;
    if AccessKeyAt(w, z, i) {
      SecretPrefixWellFormed(r);
      OwnMatch(r, m, u);
      KeyEndsBefore(w, pre, m, y, i);
      if i < |pre| {
        assert z[..n] == (pre + (m + u))[..n];
        KeyIsLocal(w, pre + (m + u), z, i, n);
      } else {
        NoKeyInLabel(w, r, z, pre, m, i);
      }
    }
  }

  lemma KeyEndsBefore(w: char -> bool, pre: string, m: string, y: string, i: nat)
    requires m != "" && IsBreak(m[|m| - 1]) && AccessKeyAt(w, pre + (m + (MASK + y)), i)
    requires i < |pre| + |m| + |MASK|
    ensures i + 20 < |pre| + |m|
  {
    var z, n, mask := pre + (m + (MASK + y)), |pre| + |m|, MASK;
    MaskLetters(mask, 9);
    assert z[n - 1] == m[|m| - 1] && z[n + 9] == mask[9];
    KeyMisses(w, z, i, n - 1);
    KeyMisses(w, z, i, n + 9);
  }

  lemma KeyMisses(w: char -> bool, z: string, i: int, k: int)
    requires AccessKeyAt(w, z, i) && 0 <= k < |z| && !IsKeyChar(z[k])
    ensures k < i || i + 20 <= k
  {
    if i <= k < i + 20 { KeyCharsAt(w, z, i, k); }
  }

  lemma NoKeyInLabel(w: char -> bool, r: Prefix, z: string, pre: string, m: string, i: nat)
    requires IsSecretPrefix(r) && Spells(r, m) && pre + m <= z && |pre| <= i && i + 20 < |pre| + |m|
    ensures !AccessKeyAt(w, z, i)
  {
    if AccessKeyAt(w, z, i) {
      var j := i - |pre|;
      KeyCharsAt(w, z, i, i);
      KeyCharsAt(w, z, i, i + 1);
      assert m[j] == (pre + m)[i] == z[i] && m[j + 1] == (pre + m)[i + 1] == z[i + 1];
      SecretPrefixWellFormed(r);
      KeysAreForeign(r);
      ForeignPair(r, m, j, Letter('a'), Letter('k'));
    }
  }

  // ---------- All passes ----------

  function AllPasses(w: char -> bool, s: string): string {
    KeyPass(w, false, Passes(Prefixes(), s))
  }

  ghost predicate NoSecretBefore(w: char -> bool, s: string, i: int) {
    forall k, c, d :: k < i ==> !SecretAt(w, s, k, c, d)
  }

  /** A match is a secret. */
  lemma {:induction false} MatchHoldsSecret(w: char -> bool, q: Prefix, s: string, k: nat)
    requires IsSecretPrefix(q) && k <= |s| && PrefixEnd(q, s[k..]).Some?
    ensures exists c, d :: SecretAt(w, s, k, c, d)
  {
    MatchIsLabelled(q, s, k);
    var c := k + PrefixEnd(q, s[k..]).value;
    LabelledHoldsSecret(w, s, k, c, c + Run(s[c..]));
  }

  lemma LabelledHoldsSecret(w: char -> bool, s: string, k: int, a: int, b: int)
    requires LabelledAt(s, k, a, b)
    ensures exists c, d :: SecretAt(w, s, k, c, d)
  {
    assert SecretAt(w, s, k, a, b);
  }

  lemma NothingBefore(w: char -> bool, s: string, i: nat)
    requires i <= |s| && NoSecretBefore(w, s, i)
    ensures forall q <- Prefixes() :: IsSecretPrefix(q) && NoMatchBefore(q, i, s)
    ensures forall k :: 0 <= k < i ==> !AccessKeyAt(w, s, k)
  {
    forall q | q in Prefixes() ensures NoMatchBefore(q, i, s) {
      forall k | 0 <= k < i ensures PrefixEnd(q, s[k..]).None? {
        if PrefixEnd(q, s[k..]).Some? { MatchHoldsSecret(w, q, s, k); }
      }
    }
    forall k | 0 <= k < i ensures !AccessKeyAt(w, s, k) { assert !SecretAt(w, s, k, k, k + 20); }
  }

  lemma {:induction false} LabelledIsMasked(w: char -> bool, s: string, i: nat, a: nat, b: nat) returns (y: string)
    requires LabelledAt(s, i, a, b) && NoSecretBefore(w, s, i)
    ensures AllPasses(w, s) == s[..a] + (MASK + y) && SameStart(s[b..], y)
  {
    var pre, m, v, t := s[..i], s[i..a], s[a..b], s[b..];
    CutAtLabel(s, i, a, b);
    var r := LabelIsSpelled(m);
    NothingBefore(w, s, i);
    var v', t' := LabelledPasses(Prefixes(), r, pre, m, v, t);
    y := MaskedPasses(w, r, pre, m, v + t, t');
    Assoc(pre, m, MASK + y);
  }

  lemma CutAtLabel(s: string, i: nat, a: nat, b: nat)
    requires LabelledAt(s, i, a, b)
    ensures s == s[..i] + (s[i..a] + (s[a..b] + s[b..])) && s[..a] == s[..i] + s[i..a]
    ensures IsValueText(s[a..b]) && EndsValue(s[b..]) && StartsValue(s[a..b] + s[b..])
  {
    CutInThree(s, i, a);
    assert s[a..] == s[a..b] + s[b..];
    forall k | a <= k <= b && k < |s| ensures IsValue(s[k]) <==> IsValueChar(s[k]) { SpaceIsBlank(s[k]); }
    ValueIsCut(s, a, b);
  }

  lemma ValueIsCut(s: string, a: nat, b: nat)
    requires a < b <= |s| && (forall k :: a <= k < b ==> IsValue(s[k])) && (b < |s| ==> !IsValue(s[b]))
    ensures IsValueText(s[a..b]) && EndsValue(s[b..]) && StartsValue(s[a..b] + s[b..])
  {
    assert forall k :: 0 <= k < b - a ==> s[a..b][k] == s[a + k];
  }

  lemma {:induction false} MaskedPasses(w: char -> bool, r: Prefix, pre: string, m: string, u: string, t: string)
    returns (y: string)
    requires IsSecretPrefix(r) && Spells(r, m) && StartsValue(u) && EndsValue(t)
    requires forall k :: 0 <= k < |pre| ==> !AccessKeyAt(w, pre + (m + u), k)
    ensures KeyPass(w, false, pre + (m + (MASK + t))) == pre + (m + (MASK + y)) && SameStart(t, y)
  {
    var z, front := pre + (m + (MASK + t)), pre + (m + MASK);
    forall i | 0 <= i < |front| ensures !AccessKeyAt(w, z, i) { NoKeyUpToMask(w, r, pre, m, u, t, i); }
    Rebracket(pre, m, MASK, t);
    KeylessBefore(w, z, front, t);
    y := KeyPass(w, Precedes(w, false, z, |front|), t);
    StartKept(w, Precedes(w, false, z, |front|), t);
    Rebracket(pre, m, MASK, y);
  }

  lemma Rebracket(a: string, b: string, c: string, d: string)
    ensures a + (b + (c + d)) == (a + (b + c)) + d
  {
  }

  lemma {:induction false} KeyIsMaskedFirst(w: char -> bool, s: string, i: nat) returns (y: string)
    requires IsWordClass(w) && AccessKeyAt(w, s, i) && NoSecretBefore(w, s, i)
    ensures AllPasses(w, s) == s[..i] + (MASK + y) && SameStart(s[i + 20..], y)
  {
    var pre, key, t := s[..i], s[i..i + 20], s[i + 20..];
    CutAtKey(w, s, i);
    NothingBefore(w, s, i);
    var t' := KeyPasses(Prefixes(), pre, key, t);
    var z := pre + (key + t');
    assert z[..i + 20] == pre + key;
    forall k | 0 <= k < i ensures !AccessKeyAt(w, z, k) {
      if AccessKeyAt(w, z, k) { KeyIsLocal(w, s, z, k, i + 20); }
    }
    KeylessBefore(w, z, pre, key + t');
    y := KeyTextIsMasked(w, Precedes(w, false, z, i), key, t');
    StartOfNext(t, t', y);
  }

  lemma CutAtKey(w: char -> bool, s: string, i: nat)
    requires AccessKeyAt(w, s, i)
    ensures s == s[..i] + (s[i..i + 20] + s[i + 20..]) && s[..i + 20] == s[..i] + s[i..i + 20]
    ensures IsKeyText(s[i..i + 20])
  {
    CutInThree(s, i, i + 20);
    AllKeyChars(w, s, i);
    KeyIsText(s, i, s[i..i + 20]);
  }

  lemma AllKeyChars(w: char -> bool, s: string, i: nat)
    requires AccessKeyAt(w, s, i)
    ensures forall k :: i <= k < i + 20 ==> IsKeyChar(s[k])
  {
    forall k | i <= k < i + 20 ensures IsKeyChar(s[k]) { KeyCharsAt(w, s, i, k); }
  }

  lemma KeyIsText(s: string, i: nat, key: string)
    requires i + 20 <= |s| && key == s[i..i + 20] && s[i..i + 4] == "AKIA"
    requires forall k :: i <= k < i + 20 ==> IsKeyChar(s[k])
    ensures IsKeyText(key)
  {
    CutTwice(s, i, key);
  }

  lemma CutTwice(s: string, i: nat, key: string)
    requires i + 20 <= |s| && key == s[i..i + 20]
    ensures key[..4] == s[i..i + 4] && forall k :: 0 <= k < 20 ==> key[k] == s[i + k]
  {
  }

  lemma CutInThree(s: string, i: nat, j: nat)
    requires i <= j <= |s|
    ensures s == s[..i] + (s[i..j] + s[j..]) && s[..j] == s[..i] + s[i..j]
  {
  }

  lemma StartOfNext(t: string, t': string, y: string)
    requires SameStart(t, t') && SameStart(t', y)
    ensures SameStart(t, y)
  {
  }

  lemma {:induction false} KeyTextIsMasked(w: char -> bool, prev: bool, key: string, t: string) returns (y: string)
    requires IsWordClass(w) && !prev && IsKeyText(key) && (t != "" ==> !w(t[0]))
    ensures KeyPass(w, prev, key + t) == MASK + y && SameStart(t, y)
  {
    var u := key + t;
    assert u[..4] == key[..4] && u[20..] == t && forall k :: 0 <= k < 20 ==> u[k] == key[k];
    KeyPassSteps(w, prev, u);
    y := KeyPass(w, true, t);
    StartKept(w, true, t);
  }

  /** Up to the first secret of a text everything is kept, it is masked as a whole, and what comes
      after it comes after the mask. */
  lemma FirstSecretIsMasked(w: char -> bool, s: string, i: int, a: int, b: int) returns (y: string)
    requires IsWordClass(w) && FirstSecretAt(w, s, i, a, b)
    ensures 0 <= a <= b <= |s| && AllPasses(w, s) == s[..a] + ("[REDACTED]" + y) && SameStart(s[b..], y)
  {
    if LabelledAt(s, i, a, b) {
      y := LabelledIsMasked(w, s, i, a, b);
    } else {
      y := KeyIsMaskedFirst(w, s, i);
    }
  }
}
