/** The secrets written out, letter by letter, and that these are what the four patterns find. */
module SecretForms {
  import opened Wrappers
  import opened Patterns
  import opened SecretPatterns
  import opened RewritePass
  import opened PrefixPass
  import opened AccessKeyPass

  // ---------- Letters, white space and values ----------

  /** Every white space character of Unicode, one by one. */
  const BLANKS: string := [
    '\t', '\n', '\U{000B}', '\U{000C}', '\r', '\U{001C}', '\U{001D}', '\U{001E}', '\U{001F}', ' ',
    '\U{0085}', '\U{00A0}', '\U{1680}', '\U{2000}', '\U{2001}', '\U{2002}', '\U{2003}', '\U{2004}', '\U{2005}',
    '\U{2006}', '\U{2007}', '\U{2008}', '\U{2009}', '\U{200A}', '\U{2028}', '\U{2029}', '\U{202F}', '\U{205F}',
    '\U{3000}']

  const KEY_CHARS := "0123456789ABCDEFGHIJKLMNOPQRSTUVWXYZ"

  predicate IsBlank(t: string) {
    forall i :: 0 <= i < |t| ==> t[i] in BLANKS
  }

  predicate IsValueChar(c: char) {
    c != ',' && c !in BLANKS
  }

  /** `c` is the letter `l`, its capital, or one of the four characters that fold to it: the capital i
      with a dot, the small i without, the kelvin sign and the long s. */
  predicate SameLetter(c: char, l: char) {
    || c == l
    || ('a' <= l <= 'z' && 'A' <= c <= 'Z' && c - 'A' == l - 'a')
    || (l == 'i' && c in "\U{0130}\U{0131}") || (l == 'k' && c == '\U{212A}') || (l == 's' && c == '\U{017F}')
  }

  /** `t` is `word`, in whatever case. */
  predicate Reads(t: string, word: string) {
    |t| == |word| && forall i :: 0 <= i < |t| ==> SameLetter(t[i], word[i])
  }

  // ---------- Labels ----------

  /** One of the marks, with white space around it. */
  ghost predicate IsMarked(t: string, marks: string) {
    exists i :: 0 <= i < |t| && t[i] in marks && IsBlank(t[..i]) && IsBlank(t[i + 1..])
  }

  ghost predicate IsPasswordLabel(t: string) {
    |t| >= 8 && Reads(t[..8], "password") && IsMarked(t[8..], ":=")
  }

  ghost predicate IsApiKeyLabel(t: string) {
    && |t| >= 6 && Reads(t[..3], "api")
    && var rest := if t[3] in "_-" then t[4..] else t[3..];
       |rest| >= 3 && Reads(rest[..3], "key") && IsMarked(rest[3..], ":=")
  }

  /** From `j` on `t` reads `bearer`, with a colon before and white space after it. */
  ghost predicate BearerFrom(t: string, j: int) {
    && 13 <= j <= |t| - 7 && IsMarked(t[13..j], ":") && Reads(t[j..j + 6], "bearer") && IsBlank(t[j + 6..])
  }

  ghost predicate IsBearerLabel(t: string) {
    |t| >= 13 && Reads(t[..13], "authorization") && exists j :: BearerFrom(t, j)
  }

  ghost predicate IsLabel(t: string) {
    IsBearerLabel(t) || IsApiKeyLabel(t) || IsPasswordLabel(t)
  }

  // ---------- Secrets ----------

  /** A label from `i` to `a`, and all of its value from `a` to `b`. */
  ghost predicate LabelledAt(s: string, i: int, a: int, b: int) {
    && 0 <= i <= a < b <= |s| && IsLabel(s[i..a])
    && (forall k :: a <= k < b ==> IsValueChar(s[k])) && (b < |s| ==> !IsValueChar(s[b]))
  }

  /** An access key at `i`, on its own as a word. */
  ghost predicate AccessKeyAt(w: char -> bool, s: string, i: int) {
    && 0 <= i <= |s| - 20 && s[i..i + 4] == "AKIA" && (forall k :: i + 4 <= k < i + 20 ==> s[k] in KEY_CHARS)
    && (i > 0 ==> !w(s[i - 1])) && (i + 20 < |s| ==> !w(s[i + 20]))
  }

  /** At `i` begins something whose text from `a` to `b` is secret. */
  ghost predicate SecretAt(w: char -> bool, s: string, i: int, a: int, b: int) {
    LabelledAt(s, i, a, b) || (a == i && b == i + 20 && AccessKeyAt(w, s, i))
  }

  ghost predicate HoldsSecret(w: char -> bool, s: string) {
    exists i, a, b :: SecretAt(w, s, i, a, b)
  }

  /** Whatever is secret there, `[REDACTED]` stands for it. */
  ghost predicate SecretFree(w: char -> bool, s: string) {
    forall i, a, b :: SecretAt(w, s, i, a, b) ==> s[a..b] == "[REDACTED]"
  }

  ghost predicate FirstSecretAt(w: char -> bool, s: string, i: int, a: int, b: int) {
    SecretAt(w, s, i, a, b) && forall k, c, d :: k < i ==> !SecretAt(w, s, k, c, d)
  }

  /** `o` is `s` up to `a`, then `[REDACTED]`, and then goes on as `s` does from `b`. */
  ghost predicate MaskedAt(s: string, a: int, b: int, o: string) {
    && 0 <= a <= b <= |s| && s[..a] + "[REDACTED]" <= o
    && if b == |s| then |o| == a + 10 else |o| > a + 10 && o[a + 10] == s[b]
  }

  /** The first secret of `s` is masked in `o`, and all that comes before it is kept. */
  ghost predicate MasksFirst(w: char -> bool, s: string, o: string) {
    forall i, a, b :: FirstSecretAt(w, s, i, a, b) ==> MaskedAt(s, a, b, o)
  }

  /** A text that holds a secret has a first one. */
  lemma FirstSecretExists(w: char -> bool, s: string)
    requires HoldsSecret(w, s)
    ensures exists i, a, b :: FirstSecretAt(w, s, i, a, b)
  {
    var i, a, b :| SecretAt(w, s, i, a, b);
    FirstSecretUpTo(w, s, i, a, b);
  }

  lemma {:induction false} FirstSecretUpTo(w: char -> bool, s: string, i: int, a: int, b: int)
    requires SecretAt(w, s, i, a, b)
    ensures exists k, c, d :: FirstSecretAt(w, s, k, c, d)
    decreases i
  {
    if k, c, d :| k < i && SecretAt(w, s, k, c, d) {
      FirstSecretUpTo(w, s, k, c, d);
    } else {
      assert FirstSecretAt(w, s, i, a, b);
    }
  }

  // ---------- The classes ----------

  lemma SpaceIsBlank(c: char)
    ensures IsSpace(c) <==> c in BLANKS
    ensures IsValue(c) <==> IsValueChar(c)
  {
  }

  lemma FoldsToSameLetter(c: char, l: char)
    requires IsLower(l)
    ensures Folds(c, l) <==> SameLetter(c, l)
  {
  }

  lemma KeyCharIsListed(c: char)
    ensures IsKeyChar(c) <==> c in KEY_CHARS
  {
  }

  // ---------- The labels are what the prefixes spell ----------

  lemma {:induction false} WordReads(w: string, rest: Prefix, t: string)
    requires forall c <- w :: IsLower(c)
    ensures Spells(Word(w) + rest, t) <==> |w| <= |t| && Reads(t[..|w|], w) && Spells(rest, t[|w|..])
  {
    if w == "" {
      assert Word(w) + rest == rest && t[0..] == t;
    } else {
      FirstLetter(w, rest, t);
      if t != "" {
        WordReads(w[1..], rest, t[1..]);
        if |w| <= |t| {
          assert t[1..][|w| - 1..] == t[|w|..] && t[..|w|][1..] == t[1..][..|w| - 1];
          ReadsStep(t[..|w|], w);
        }
      }
    }
  }

  lemma {:induction false} FirstLetter(w: string, rest: Prefix, t: string)
    requires w != "" && forall c <- w :: IsLower(c)
    ensures Spells(Word(w) + rest, t) <==>
            t != "" && SameLetter(t[0], w[0]) && Spells(Word(w[1..]) + rest, t[1..])
  {
    var p := Word(w) + rest;
    assert p[0] == One(Letter(w[0])) && p[1..] == Word(w[1..]) + rest;
    if t != "" { FoldsToSameLetter(t[0], w[0]); }
  }

  lemma ReadsStep(t: string, w: string)
    requires |t| == |w| > 0
    ensures Reads(t, w) <==> SameLetter(t[0], w[0]) && Reads(t[1..], w[1..])
  {
    if SameLetter(t[0], w[0]) && Reads(t[1..], w[1..]) {
      forall i | 0 <= i < |t| ensures SameLetter(t[i], w[i]) {
        if i > 0 { assert SameLetter(t[1..][i - 1], w[1..][i - 1]); }
      }
    }
  }

  ghost predicate BlankUpTo(rest: Prefix, t: string, j: int) {
    0 <= j <= |t| && IsBlank(t[..j]) && Spells(rest, t[j..])
  }

  lemma CutBehindFirst(t: string, j: int)
    requires 0 < j <= |t|
    ensures t[1..][j - 1..] == t[j..]
    ensures t[..j] == [t[0]] + t[1..][..j - 1] && t[..j][1..] == t[1..][..j - 1] && t[..j][0] == t[0]
    ensures IsBlank(t[..j]) <==> t[0] in BLANKS && IsBlank(t[1..][..j - 1])
  {
    var front, rest := t[..j], t[1..][..j - 1];
    assert front == [t[0]] + rest;
    assert forall i :: 0 <= i < |rest| ==> rest[i] == front[i + 1];
  }

  lemma {:induction false} SpacesAreBlank(rest: Prefix, t: string)
    ensures Spells([Star(Space)] + rest, t) <==> exists j :: BlankUpTo(rest, t, j)
    decreases |t|
  {
    var p := [Star(Space)] + rest;
    assert p[1..] == rest && t[0..] == t;
    if t != "" {
      SpaceIsBlank(t[0]);
      SpacesAreBlank(rest, t[1..]);
      if j :| BlankUpTo(rest, t, j) && j > 0 {
        CutBehindFirst(t, j);
        assert BlankUpTo(rest, t[1..], j - 1);
      }
      if t[0] in BLANKS {
        if j :| BlankUpTo(rest, t[1..], j) {
          CutBehindFirst(t, j + 1);
          assert BlankUpTo(rest, t, j + 1);
        }
      }
      assert BlankUpTo(rest, t, 0) <==> Spells(rest, t);
    } else {
      assert BlankUpTo(rest, t, 0) <==> Spells(rest, t);
    }
  }

  ghost predicate MarkedUpTo(marks: string, rest: Prefix, t: string, j: int) {
    0 <= j <= |t| && IsMarked(t[..j], marks) && Spells(rest, t[j..])
  }

  function Marked(marks: string): Prefix {
    [Star(Space), One(Among(marks)), Star(Space)]
  }

  lemma MarkIsSpelled(marks: string, rest: Prefix, t: string)
    ensures Spells(Marked(marks) + rest, t) <==> exists j :: MarkedUpTo(marks, rest, t, j)
  {
    var tail := [One(Among(marks))] + ([Star(Space)] + rest);
    assert Marked(marks) + rest == [Star(Space)] + tail && tail[1..] == [Star(Space)] + rest;
    SpacesAreBlank(tail, t);
    if Spells(Marked(marks) + rest, t) {
      var i :| BlankUpTo(tail, t, i);
      SpacesAreBlank(rest, t[i..][1..]);
      var k :| BlankUpTo(rest, t[i..][1..], k);
      CutAtMark(t, i, i + 1 + k);
      assert MarkedUpTo(marks, rest, t, i + 1 + k);
    }
    if j :| MarkedUpTo(marks, rest, t, j) {
      var i :| 0 <= i < j && t[..j][i] in marks && IsBlank(t[..j][..i]) && IsBlank(t[..j][i + 1..]);
      CutAtMark(t, i, j);
      assert BlankUpTo(rest, t[i..][1..], j - i - 1);
      SpacesAreBlank(rest, t[i..][1..]);
      assert BlankUpTo(tail, t, i);
    }
  }

  lemma CutAtMark(t: string, i: nat, j: nat)
    requires i < j <= |t|
    ensures t[..j][i] == t[i..][0] && t[..j][..i] == t[..i]
    ensures t[..j][i + 1..] == t[i..][1..][..j - i - 1] && t[j..] == t[i..][1..][j - i - 1..]
  {
  }

  lemma MarkEnds(marks: string, t: string)
    ensures Spells(Marked(marks), t) <==> IsMarked(t, marks)
  {
    MarkIsSpelled(marks, [], t);
    assert Marked(marks) + [] == Marked(marks);
    assert t[..|t|] == t && t[|t|..] == "";
    if IsMarked(t, marks) { assert MarkedUpTo(marks, [], t, |t|); }
    if j :| MarkedUpTo(marks, [], t, j) { assert j == |t|; }
  }

  lemma BlankEnds(t: string)
    ensures Spells([One(Space), Star(Space)], t) <==> t != "" && IsBlank(t)
  {
    var p: Prefix := [One(Space), Star(Space)];
    assert p[1..] == [Star(Space)] + [];
    if t != "" {
      SpaceIsBlank(t[0]);
      SpacesAreBlank([], t[1..]);
      if IsBlank(t) { assert t[1..][..|t| - 1] == t[1..]; assert BlankUpTo([], t[1..], |t| - 1); }
      if j :| BlankUpTo([], t[1..], j) {
        assert j == |t| - 1 && t[1..][..j] == t[1..];
        if t[0] in BLANKS { assert t == [t[0]] + t[1..]; }
      }
    }
  }

  lemma PasswordIsLabelled(t: string)
    ensures Spells(Password(), t) <==> IsPasswordLabel(t)
  {
    var word, marks := "password", "=:";
    assert Password() == Word(word) + Marked(marks);
    WordReads(word, Marked(marks), t);
    if |t| >= 8 {
      MarkEnds(marks, t[8..]);
      SameMarks(t[8..]);
    }
  }

  /** The order in which the marks are listed does not matter. */
  lemma SameMarks(t: string)
    ensures IsMarked(t, "=:") <==> IsMarked(t, ":=")
  {
    assert forall c: char :: c in "=:" <==> c in ":=";
  }

  lemma ApiKeyIsLabelled(t: string)
    ensures Spells(ApiKey(), t) <==> IsApiKeyLabel(t)
  {
    var api, key, marks := "api", "key", "=:";
    var end := Word(key) + Marked(marks);
    var opt: Prefix := [Opt(Among("_-"))] + end;
    assert ApiKey() == Word(api) + opt && opt[1..] == end;
    WordReads(api, opt, t);
    if |t| >= 3 {
      var u := t[3..];
      KeyIsLabelled(key, marks, u);
      if u != "" {
        assert u[1..] == t[4..];
        KeyIsLabelled(key, marks, u[1..]);
        if u[0] in "_-" && |u| >= 3 { assert u[..3][0] == u[0] && !SameLetter(u[0], 'k'); }
      }
    }
  }

  lemma KeyIsLabelled(key: string, marks: string, u: string)
    requires key == "key" && marks == "=:"
    ensures Spells(Word(key) + Marked(marks), u) <==> |u| >= 3 && Reads(u[..3], key) && IsMarked(u[3..], ":=")
  {
    WordReads(key, Marked(marks), u);
    if |u| >= 3 {
      MarkEnds(marks, u[3..]);
      SameMarks(u[3..]);
    }
  }

  lemma BearerIsLabelled(t: string)
    ensures Spells(Bearer(), t) <==> IsBearerLabel(t)
  {
    var word, bearer, marks, blank: Prefix := "authorization", "bearer", ":", [One(Space), Star(Space)];
    var end := Word(bearer) + blank;
    assert Bearer() == Word(word) + (Marked(marks) + end);
    WordReads(word, Marked(marks) + end, t);
    if |t| >= 13 {
      var u := t[13..];
      MarkIsSpelled(marks, end, u);
      forall j | 0 <= j <= |u|
        ensures MarkedUpTo(marks, end, u, j) <==> BearerFrom(t, 13 + j)
      {
        WordReads(bearer, blank, u[j..]);
        assert u[..j] == t[13..13 + j] && u[j..] == t[13 + j..];
        if |u| - j >= 6 {
          assert u[j..][..6] == t[13 + j..13 + j + 6] && u[j..][6..] == t[13 + j + 6..];
          BlankEnds(t[13 + j + 6..]);
        }
      }
      if j :| BearerFrom(t, j) { assert MarkedUpTo(marks, end, u, j - 13); }
    }
  }

  // ---------- What the patterns find is what is written out ----------

  predicate IsSecretPrefix(q: Prefix) {
    q == Bearer() || q == ApiKey() || q == Password()
  }

  lemma SecretPrefixWellFormed(q: Prefix)
    requires IsSecretPrefix(q)
    ensures WellFormed(q)
  {
    BearerWellFormed();
    ApiKeyWellFormed();
    PasswordWellFormed();
  }

  lemma SpelledIsLabel(q: Prefix, t: string)
    requires IsSecretPrefix(q) && Spells(q, t)
    ensures IsLabel(t)
  {
    BearerIsLabelled(t);
    ApiKeyIsLabelled(t);
    PasswordIsLabelled(t);
  }

  lemma LabelIsSpelled(t: string) returns (q: Prefix)
    requires IsLabel(t)
    ensures IsSecretPrefix(q) && Spells(q, t)
  {
    BearerIsLabelled(t);
    ApiKeyIsLabelled(t);
    PasswordIsLabelled(t);
    q := if IsBearerLabel(t) then Bearer() else if IsApiKeyLabel(t) then ApiKey() else Password();
  }

  /** A match is a label with its value. */
  lemma MatchIsLabelled(q: Prefix, s: string, i: nat)
    requires IsSecretPrefix(q) && i <= |s| && PrefixEnd(q, s[i..]).Some?
    ensures
      var a := i + PrefixEnd(q, s[i..]).value;
      LabelledAt(s, i, a, a + Run(s[a..]))
  {
    var e := PrefixEnd(q, s[i..]).value;
    var a := i + e;
    PrefixEndSound(q, s[i..]);
    assert s[i..][..e] == s[i..a] && s[i..][e] == s[a..][0];
    SpelledIsLabel(q, s[i..a]);
    ValueSpans(s, a, a + Run(s[a..]));
  }

  /** The value that begins at `a` ends at `b`. */
  lemma ValueSpans(s: string, a: nat, b: nat)
    requires a <= b <= |s|
    ensures b == a + Run(s[a..]) <==>
            (forall k :: a <= k < b ==> IsValueChar(s[k])) && (b < |s| ==> !IsValueChar(s[b]))
  {
    var u := s[a..];
    RunIsMaximal(u);
    forall c: char ensures IsValue(c) <==> IsValueChar(c) { SpaceIsBlank(c); }
    assert forall k :: a <= k < |s| ==> s[k] == u[k - a];
    if (forall k :: a <= k < b ==> IsValueChar(s[k])) && (b < |s| ==> !IsValueChar(s[b])) {
      assert forall k :: 0 <= k < b - a ==> u[k] == s[a + k];
      RunIs(u, b - a);
    }
  }

  /** And a label with its value is a match. */
  lemma LabelledIsMatch(s: string, i: nat, a: nat, b: nat) returns (q: Prefix)
    requires LabelledAt(s, i, a, b)
    ensures IsSecretPrefix(q) && Spells(q, s[i..a])
    ensures PrefixEnd(q, s[i..]) == Some(a - i) && b == a + Run(s[a..])
  {
    q := LabelIsSpelled(s[i..a]);
    SecretPrefixWellFormed(q);
    SpaceIsBlank(s[a]);
    assert s[i..][..a - i] == s[i..a] && s[i..][a - i] == s[a];
    PrefixEndComplete(q, s[i..], a - i);
    ValueSpans(s, a, b);
  }

  lemma KeyIsAt(w: char -> bool, s: string, i: nat)
    requires i <= |s|
    ensures KeyAt(w, i > 0 && w(s[i - 1]), s[i..]) <==> AccessKeyAt(w, s, i)
  {
    var u := s[i..];
    forall c: char ensures IsKeyChar(c) <==> c in KEY_CHARS { KeyCharIsListed(c); }
    if |u| >= 20 {
      assert u[..4] == s[i..i + 4];
      assert forall k :: i <= k < |s| ==> s[k] == u[k - i];
      assert forall k :: 0 <= k < |u| ==> u[k] == s[i + k];
    }
  }
}
