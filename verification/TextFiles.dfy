/** Text files: reading in text mode, and replacing one text by another. */
module TextFiles {
  import Strings

  /** Reading in text mode translates every line ending to a line feed. */
  function ReadText(raw: string): string {
    if raw == "" then ""
    else if raw[0] != '\r' then [raw[0]] + ReadText(raw[1..])
    else if |raw| > 1 && raw[1] == '\n' then "\n" + ReadText(raw[2..])
    else "\n" + ReadText(raw[1..])
  }

  /** Reading changes nothing exactly when the file has no carriage return. */
  lemma {:induction false} ReadTextIsExactIffNoReturn(raw: string)
    ensures ReadText(raw) == raw <==> '\r' !in raw
    ensures |ReadText(raw)| <= |raw|
  {
    if raw != "" {
      if raw[0] != '\r' {
        ReadTextIsExactIffNoReturn(raw[1..]);
        assert raw == [raw[0]] + raw[1..];
        assert ReadText(raw) == raw ==> ReadText(raw)[1..] == raw[1..];
      } else if |raw| > 1 && raw[1] == '\n' {
        ReadTextIsExactIffNoReturn(raw[2..]);
      } else {
        ReadTextIsExactIffNoReturn(raw[1..]);
        assert ReadText(raw)[0] != raw[0];
      }
    }
  }

  /** `s.replace(old, new)` */
  function ReplaceAll(s: string, old_: string, new_: string): string {
    if old_ == "" then new_ + (if s == "" then "" else [s[0]] + ReplaceAll(s[1..], old_, new_))
    else if |s| < |old_| then s
    else if old_ <= s then new_ + ReplaceAll(s[|old_|..], old_, new_)
    else [s[0]] + ReplaceAll(s[1..], old_, new_)
  }

  // ---------- Cutting and joining ----------

  function Joined(parts: seq<string>, sep: string): string
    requires parts != []
  {
    if |parts| == 1 then parts[0] else parts[0] + (sep + Joined(parts[1..], sep))
  }

  /** `part` followed by `sep` has `sep` at its end and nowhere before. */
  ghost predicate EndsAtFirst(part: string, sep: string) {
    forall j :: 0 <= j < |part| ==> !(sep <= (part + sep)[j..])
  }

  /** `s` is cut at each `sep` in it, from left to right; at an empty one before and after every character. */
  ghost predicate IsCut(s: string, sep: string, parts: seq<string>) {
    && parts != [] && Joined(parts, sep) == s
    && if sep == "" then
         && |parts| == |s| + 2 && parts[0] == parts[|s| + 1] == ""
         && forall i :: 0 <= i < |s| ==> parts[i + 1] == [s[i]]
       else
         && (forall i :: 0 <= i < |parts| - 1 ==> EndsAtFirst(parts[i], sep))
         && !Strings.Contains(parts[|parts| - 1], sep)
  }

  /** The result of replacing is the cut text, joined with the new text. */
  ghost predicate IsReplaced(s: string, old_: string, new_: string, r: string) {
    exists parts :: IsCut(s, old_, parts) && r == Joined(parts, new_)
  }

  /** The text that a file reads as: carriage return and line feed together, then each carriage return by itself,
      become a line feed. */
  ghost predicate ReadsAs(raw: string, text: string) {
    exists mid :: IsReplaced(raw, "\r\n", "\n", mid) && IsReplaced(mid, "\r", "\n", text)
  }

  /** `out` is what `raw` reads as, with every `old_` in it replaced. */
  ghost predicate IsPatch(raw: string, old_: string, new_: string, out: string) {
    exists text :: ReadsAs(raw, text) && IsReplaced(text, old_, new_, out)
  }

  // ---------- There is one cut ----------

  function Cut(s: string, sep: string): (r: seq<string>)
    requires sep != ""
    ensures r != []
  {
    if |s| < |sep| then [s]
    else if sep <= s then [""] + Cut(s[|sep|..], sep)
    else var rest := Cut(s[1..], sep); [[s[0]] + rest[0]] + rest[1..]
  }

  lemma JoinedCons(part: string, rest: seq<string>, sep: string)
    requires rest != []
    ensures Joined([part] + rest, sep) == part + (sep + Joined(rest, sep))
  {
    assert ([part] + rest)[1..] == rest;
  }

  lemma JoinedLonger(c: char, rest: seq<string>, sep: string)
    requires rest != []
    ensures Joined([[c] + rest[0]] + rest[1..], sep) == [c] + Joined(rest, sep)
  {
    if |rest| == 1 {
      assert [[c] + rest[0]] + rest[1..] == [[c] + rest[0]];
    } else {
      JoinedCons([c] + rest[0], rest[1..], sep);
      var tail := sep + Joined(rest[1..], sep);
      assert ([c] + rest[0]) + tail == [c] + (rest[0] + tail);
    }
  }

  /** Replacing joins the cut text with the new text. */
  lemma {:induction false} ReplaceJoins(s: string, sep: string, new_: string)
    requires sep != ""
    ensures ReplaceAll(s, sep, new_) == Joined(Cut(s, sep), new_)
    ensures Joined(Cut(s, sep), sep) == s
    decreases |s|
  {
    if |s| >= |sep| && sep <= s {
      ReplaceJoins(s[|sep|..], sep, new_);
      JoinedCons("", Cut(s[|sep|..], sep), sep);
      JoinedCons("", Cut(s[|sep|..], sep), new_);
      assert s == sep + s[|sep|..];
    } else if |s| >= |sep| {
      ReplaceJoins(s[1..], sep, new_);
      JoinedLonger(s[0], Cut(s[1..], sep), sep);
      JoinedLonger(s[0], Cut(s[1..], sep), new_);
      assert s == [s[0]] + s[1..];
    }
  }

  lemma {:induction false} CutIsCut(s: string, sep: string)
    requires sep != ""
    ensures IsCut(s, sep, Cut(s, sep))
    decreases |s|
  {
    ReplaceJoins(s, sep, sep);
    if |s| >= |sep| && sep <= s {
      CutIsCut(s[|sep|..], sep);
      assert EndsAtFirst("", sep);
    } else if |s| >= |sep| {
      CutIsCut(s[1..], sep);
      LongerIsCut(s, sep, Cut(s[1..], sep));
    }
  }

  lemma LongerIsCut(s: string, sep: string, rest: seq<string>)
    requires |s| >= |sep| > 0 && !(sep <= s) && IsCut(s[1..], sep, rest)
    ensures IsCut(s, sep, [[s[0]] + rest[0]] + rest[1..])
  {
    var part, parts := [s[0]] + rest[0], [[s[0]] + rest[0]] + rest[1..];
    JoinedLonger(s[0], rest, sep);
    assert s == [s[0]] + s[1..];
    if |rest| == 1 {
      forall j | 0 <= j <= |part| ensures !(sep <= part[j..]) {
        if j > 0 { assert part[j..] == rest[0][j - 1..]; } else { assert part[j..] == s; }
      }
    } else {
      assert part + sep <= s by { assert s == (part + sep) + Joined(rest[1..], sep); }
      forall j | 0 <= j < |part| ensures !(sep <= (part + sep)[j..]) {
        assert (part + sep)[j..] == if j > 0 then (rest[0] + sep)[j - 1..] else part + sep;
      }
      assert parts[|parts| - 1] == rest[|rest| - 1];
    }
  }

  /** The cut at nothing. */
  function Singles(s: string): (r: seq<string>)
    ensures |r| == |s| && forall i :: 0 <= i < |s| ==> r[i] == [s[i]]
  {
    seq(|s|, i requires 0 <= i < |s| => [s[i]])
  }

  lemma SinglesStep(s: string, sep: string)
    requires s != ""
    ensures Joined(Singles(s) + [""], sep) == [s[0]] + (sep + Joined(Singles(s[1..]) + [""], sep))
  {
    var rest := Singles(s[1..]) + [""];
    assert Singles(s) + [""] == [[s[0]]] + rest;
    JoinedCons([s[0]], rest, sep);
  }

  lemma {:induction false} SinglesJoin(s: string)
    ensures Joined(Singles(s) + [""], "") == s
  {
    if s != "" {
      SinglesStep(s, "");
      SinglesJoin(s[1..]);
      assert "" + s[1..] == s[1..] && s == [s[0]] + s[1..];
    }
  }

  lemma {:induction false} ReplaceNothingJoins(s: string, new_: string)
    ensures ReplaceAll(s, "", new_) == new_ + Joined(Singles(s) + [""], new_)
  {
    if s != "" {
      SinglesStep(s, new_);
      ReplaceNothingJoins(s[1..], new_);
    }
  }

  /** Replacing cuts the text from left to right and joins it with the new text. */
  lemma ReplacesAll(s: string, old_: string, new_: string)
    ensures IsReplaced(s, old_, new_, ReplaceAll(s, old_, new_))
  {
    if old_ != "" {
      CutIsCut(s, old_);
      ReplaceJoins(s, old_, new_);
    } else {
      var rest := Singles(s) + [""];
      SinglesJoin(s);
      ReplaceNothingJoins(s, new_);
      JoinedCons("", rest, old_);
      JoinedCons("", rest, new_);
      assert IsCut(s, old_, [""] + rest);
    }
  }

  /** A first part that ends where the separator first is cannot be shorter than another. */
  lemma FirstIsNoShorter(s: string, sep: string, a: string, b: string)
    requires sep != "" && a + sep <= s && b + sep <= s && EndsAtFirst(b, sep)
    ensures |a| >= |b|
  {
    if |a| < |b| { OccursInLonger(s, sep, a, b); }
  }

  lemma OccursInLonger(s: string, sep: string, a: string, b: string)
    requires a + sep <= s && b + sep <= s && |a| < |b|
    ensures sep <= (b + sep)[|a|..]
  {
    var n := |a| + |sep|;
    assert s[..n] == a + sep && s[..|b| + |sep|] == b + sep;
    assert (b + sep)[|a|..][..|sep|] == s[|a|..n] == (a + sep)[|a|..] == sep;
  }

  lemma {:induction false} CutIsUnique(s: string, sep: string, p: seq<string>, q: seq<string>)
    requires IsCut(s, sep, p) && IsCut(s, sep, q)
    ensures p == q
    decreases |p|
  {
    if sep == "" {
      forall i | 0 <= i < |p| ensures p[i] == q[i] {
        if 0 < i <= |s| { assert p[i - 1 + 1] == [s[i - 1]] == q[i - 1 + 1]; }
      }
    } else if |p| == 1 {
      if |q| > 1 { JoinedContains(q, sep); }
    } else if |q| == 1 {
      JoinedContains(p, sep);
    } else {
      var t, u := Joined(p[1..], sep), Joined(q[1..], sep);
      assert s == (p[0] + sep) + t && s == (q[0] + sep) + u;
      FirstIsNoShorter(s, sep, p[0], q[0]);
      FirstIsNoShorter(s, sep, q[0], p[0]);
      var n := |p[0]| + |sep|;
      assert s[..n][..|p[0]|] == p[0] && s[..n][..|p[0]|] == q[0] && s[n..] == t && s[n..] == u;
      TailIsCut(s, sep, p, t);
      TailIsCut(s, sep, q, u);
      CutIsUnique(t, sep, p[1..], q[1..]);
      assert p == [p[0]] + p[1..] && q == [q[0]] + q[1..];
    }
  }

  lemma TailIsCut(s: string, sep: string, p: seq<string>, t: string)
    requires IsCut(s, sep, p) && sep != "" && |p| > 1 && t == Joined(p[1..], sep)
    ensures IsCut(t, sep, p[1..])
  {
    assert forall i :: 0 <= i < |p| - 1 ==> p[1..][i] == p[i + 1];
  }

  /** Two parts or more have the separator between them. */
  lemma JoinedContains(parts: seq<string>, sep: string)
    requires |parts| > 1
    ensures Strings.Contains(Joined(parts, sep), sep)
  {
    var s, n := Joined(parts, sep), |parts[0]|;
    assert s[n..] == sep + Joined(parts[1..], sep);
    assert sep <= s[n..];
  }

  // ---------- What replacing does ----------

  /** There is one result of replacing. */
  lemma ReplacedIsUnique(s: string, old_: string, new_: string, r: string)
    ensures IsReplaced(s, old_, new_, r) <==> r == ReplaceAll(s, old_, new_)
  {
    ReplacesAll(s, old_, new_);
    if IsReplaced(s, old_, new_, r) {
      var p :| IsCut(s, old_, p) && r == Joined(p, new_);
      var q :| IsCut(s, old_, q) && ReplaceAll(s, old_, new_) == Joined(q, new_);
      CutIsUnique(s, old_, p, q);
    }
  }

  /** A single occurrence is replaced where it is. */
  lemma {:induction false} OneOccurrence(pre: string, old_: string, post: string, new_: string)
    requires old_ != "" && forall j :: 0 <= j <= |pre + old_ + post| && old_ <= (pre + old_ + post)[j..] ==> j == |pre|
    ensures ReplaceAll(pre + old_ + post, old_, new_) == pre + new_ + post
  {
    var s := pre + old_ + post;
    OneCut(s, pre, old_, post);
    JoinedCons(pre, [post], new_);
    assert pre + (new_ + post) == pre + new_ + post;
    assert IsReplaced(s, old_, new_, pre + new_ + post);
    ReplacedIsUnique(s, old_, new_, pre + new_ + post);
  }

  lemma {:induction false} OneCut(s: string, pre: string, old_: string, post: string)
    requires old_ != "" && s == pre + old_ + post
    requires forall j :: 0 <= j <= |s| && old_ <= s[j..] ==> j == |pre|
    ensures IsCut(s, old_, [pre] + [post])
  {
    forall j | 0 <= j < |pre| ensures !(old_ <= (pre + old_)[j..]) {
      assert s[j..] == (pre + old_)[j..] + post;
    }
    forall j | 0 <= j <= |post| ensures !(old_ <= post[j..]) {
      assert s[|pre| + |old_| + j..] == post[j..];
    }
    JoinedCons(pre, [post], old_);
    assert pre + (old_ + post) == s;
  }

  /** Where there was something to replace, the new text is there. */
  lemma ReplacedContainsNew(s: string, old_: string, new_: string)
    requires Strings.Contains(s, old_)
    ensures Strings.Contains(ReplaceAll(s, old_, new_), new_)
  {
    ReplacesAll(s, old_, new_);
    var parts :| IsCut(s, old_, parts) && ReplaceAll(s, old_, new_) == Joined(parts, new_);
    JoinedContains(parts, new_);
  }

  // ---------- What reading does ----------

  lemma {:induction false} ReadTextReplaces(raw: string)
    ensures ReadText(raw) == ReplaceAll(ReplaceAll(raw, "\r\n", "\n"), "\r", "\n")
    decreases |raw|
  {
    if raw != "" {
      if raw[0] == '\r' && |raw| > 1 && raw[1] == '\n' {
        ReadTextReplaces(raw[2..]);
        assert raw[..2] == "\r\n";
        ReplaceKeeps('\n', ReplaceAll(raw[2..], "\r\n", "\n"), "\n");
      } else {
        ReadTextReplaces(raw[1..]);
        KeepsOne(raw);
        ReplaceKeeps(raw[0], ReplaceAll(raw[1..], "\r\n", "\n"), "\n");
      }
    }
  }

  lemma KeepsOne(raw: string)
    requires raw != "" && (raw[0] != '\r' || |raw| == 1 || raw[1] != '\n')
    ensures ReplaceAll(raw, "\r\n", "\n") == [raw[0]] + ReplaceAll(raw[1..], "\r\n", "\n")
  {
    if |raw| >= 2 { assert raw[..2][0] == raw[0] && raw[..2][1] == raw[1]; } else { assert raw == [raw[0]] + raw[1..]; }
  }

  lemma ReplaceKeeps(c: char, rest: string, new_: string)
    ensures ReplaceAll([c] + rest, "\r", new_) == (if c == '\r' then new_ else [c]) + ReplaceAll(rest, "\r", new_)
  {
    var old_, s := "\r", [c] + rest;
    assert s[1..] == rest && s[..1] == [c] && s[0] == c;
    assert old_ <= s <==> c == '\r';
    assert |old_| == 1;
  }

  /** A file reads as just one text. */
  lemma ReadsAsIff(raw: string, text: string)
    ensures ReadsAs(raw, text) <==> text == ReadText(raw)
  {
    var mid := ReplaceAll(raw, "\r\n", "\n");
    ReadTextReplaces(raw);
    ReplacedIsUnique(raw, "\r\n", "\n", mid);
    ReplacedIsUnique(mid, "\r", "\n", text);
    if ReadsAs(raw, text) {
      var m :| IsReplaced(raw, "\r\n", "\n", m) && IsReplaced(m, "\r", "\n", text);
      ReplacedIsUnique(raw, "\r\n", "\n", m);
    }
  }

  /** There is one patch of a file. */
  lemma PatchIsUnique(raw: string, old_: string, new_: string, out: string)
    ensures IsPatch(raw, old_, new_, out) <==> out == ReplaceAll(ReadText(raw), old_, new_)
  {
    ReadsAsIff(raw, ReadText(raw));
    ReplacedIsUnique(ReadText(raw), old_, new_, out);
    if IsPatch(raw, old_, new_, out) {
      var text :| ReadsAs(raw, text) && IsReplaced(text, old_, new_, out);
      ReadsAsIff(raw, text);
    }
  }

  /** The patch of a file that holds the old text has the new one in it. */
  lemma PatchHolds(raw: string, old_: string, new_: string, out: string)
    requires Strings.Contains(ReadText(raw), old_) && out == ReplaceAll(ReadText(raw), old_, new_)
    ensures IsPatch(raw, old_, new_, out) && Strings.Contains(out, new_)
  {
    PatchIsUnique(raw, old_, new_, out);
    ReplacedContainsNew(ReadText(raw), old_, new_);
  }
}
