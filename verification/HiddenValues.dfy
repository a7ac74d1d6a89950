/** What redaction still tells about a value that it masks. */
module HiddenValues {
  import opened Wrappers
  import opened Patterns
  import opened SecretPatterns
  import opened RewritePass
  import opened PrefixPass
  import opened PassPieces
  import opened ValuesInPass
  import Redaction

  lemma ProbeIsValue()
    ensures IsValueText(PROBE)
  {
  }

  /** A value becomes a value. */
  lemma {:induction false} ValuesStayValues(q: Prefix, hold: Option<nat>, v: string)
    requires WellFormed(q) && IsValueText(v) && Pending(hold, v)
    ensures IsValueText(Out(q, hold, v))
    decreases |v|, if hold.None? then 1 else 0
  {
    if hold == Some(0) {
      RunIsMaximal(v);
      assert v[|v|..] == "";
      MaskIsValue();
    } else if hold.None? && PrefixEnd(q, v).Some? {
      OutMatches(q, v);
      ValuesStayValues(q, PrefixEnd(q, v), v);
    } else if |v| > 1 {
      var hold' := if hold.None? then None else Some(hold.value - 1);
      ValuesStayValues(q, hold', v[1..]);
    } else {
      assert v[1..] == "";
    }
  }

  // ---------- Several passes ----------

  /** Some pass hides a value that comes after `pre`. */
  predicate HidesAll(qs: seq<Prefix>, pre: string) {
    !EndsInProbe(Passes(qs, pre + PROBE))
  }

  lemma {:induction false} BracketsStay(qs: seq<Prefix>, s: string)
    requires AllWellFormed(qs) && s != "" && Blocked(s)
    ensures EndsAlike(s, Passes(qs, s))
  {
    if qs != [] {
      BracketStays(qs[0], None, s);
      BracketsStay(qs[1..], Pass(qs[0], s));
    }
  }

  lemma {:induction false} PassesKeepShut(qs: seq<Prefix>, t: string)
    requires AllWellFormed(qs) && EndsValue(t)
    ensures EndsValue(Passes(qs, t)) && (Shut(Passes(qs, t)) <==> Shut(t))
  {
    if qs != [] {
      ShutIsKept(qs[0], t);
      PassesKeepShut(qs[1..], Pass(qs[0], t));
    }
  }

  /** After a bracket, or before what is shut, the passes go over the two parts by themselves. */
  lemma {:induction false} PassesSplit(qs: seq<Prefix>, s: string, t: string)
    requires AllWellFormed(qs) && EndsValue(t) && (Shut(t) || Blocked(s))
    ensures Passes(qs, s + t) == Passes(qs, s) + Passes(qs, t)
  {
    if qs != [] {
      var q := qs[0];
      PassSplits(q, None, s, t, s + t, Pass(q, t));
      ShutIsKept(q, t);
      if s != "" && Blocked(s) { BracketStays(q, None, s); }
      PassesSplit(qs[1..], Pass(q, s), Pass(q, t));
    }
  }

  /** A value that some pass hides, before a text that is shut, may as well be another. */
  lemma {:induction false} ShutForgets(qs: seq<Prefix>, pre: string, v: string, t: string)
    requires AllWellFormed(qs) && IsValueText(v) && Shut(t) && HidesAll(qs, pre)
    ensures Passes(qs, pre + v + t) == Passes(qs, pre + PROBE) + Passes(qs, t)
  {
    if qs == [] {
      EndsInTail(pre, PROBE);
    } else if Hides(qs[0], pre) {
      HiddenByFirst(qs, pre, v, t);
    } else {
      var q, a := qs[0], Stem(qs[0], pre);
      var w := ShownStaysAfter(q, pre, v);
      PassSplits(q, None, pre + v, t, pre + v + t, Pass(q, t));
      ShutIsKept(q, t);
      ShutForgets(qs[1..], a, w, Pass(q, t));
    }
  }

  /** A value that the pass does not hide becomes some value after the same text. */
  lemma ShownStaysAfter(q: Prefix, pre: string, v: string) returns (w: string)
    requires WellFormed(q) && IsValueText(v) && !Hides(q, pre)
    ensures IsValueText(w) && Pass(q, pre + v) == Stem(q, pre) + w
  {
    var stem, on := HidesIff(q, pre, v);
    w := Out(q, on.hold, v);
    ValuesStayValues(q, on.hold, v);
  }

  /** If the first pass hides it, anything may follow. */
  lemma HiddenByFirst(qs: seq<Prefix>, pre: string, v: string, t: string)
    requires AllWellFormed(qs) && qs != [] && IsValueText(v) && EndsValue(t) && Hides(qs[0], pre)
    ensures Passes(qs, pre + v + t) == Passes(qs, pre + PROBE + t)
    ensures Shut(t) ==> Passes(qs, pre + v + t) == Passes(qs, pre + PROBE) + Passes(qs, t)
  {
    ProbeIsValue();
    FirstForgets(qs[0], pre, v, t);
    FirstForgets(qs[0], pre, PROBE, t);
    ShutIsKept(qs[0], t);
    if Shut(t) { PassesSplit(qs[1..], Pass(qs[0], pre + PROBE), Pass(qs[0], t)); }
  }

  lemma FirstForgets(q: Prefix, pre: string, v: string, t: string)
    requires WellFormed(q) && IsValueText(v) && EndsValue(t) && Hides(q, pre)
    ensures Pass(q, pre + v + t) == Pass(q, pre + PROBE) + Pass(q, t)
  {
    ValueRun(v, t);
    Assoc(pre, v, t);
    var stem, on := HidesIff(q, pre, v + t);
  }

  // ---------- What tells ----------

  /** The text after the gap masked; what comes out is shut. */
  lemma MaskShuts(q: Prefix, t: string) returns (shut: string)
    requires WellFormed(q) && EndsValue(t) && Gap(t) < |t| && IsValue(t[Gap(t)])
    ensures
      var r := t[Gap(t)..];
      Shut(shut) && shut == t[..Gap(t)] + (MASK + Pass(q, r[Run(r)..]))
  {
    var sp, r := t[..Gap(t)], t[Gap(t)..];
    var rest := r[Run(r)..];
    var o := MASK + Pass(q, rest);
    shut := sp + o;
    GapIsMaximal(t);
    RunIsMaximal(r);
    FirstIsKept(q, rest);
    MaskRun(o);
    assert r[0] == t[Gap(t)] && o[0] == '[';
    GapIs(sp, r, o);
  }

  /** The pass takes the value that follows the gap for its own. */
  lemma OpenPass(q: Prefix, pre: string, v: string, t: string) returns (shut: string)
    requires WellFormed(q) && IsValueText(v) && EndsValue(t) && !Hides(q, pre)
    requires Gap(t) < |t| && IsValue(t[Gap(t)]) && PrefixEnd(q, v + t) == Some(|v| + Gap(t))
    ensures Shut(shut) && Pass(q, pre + v + t) == Stem(q, pre) + v + shut
  {
    var g := Gap(t);
    var sp, r := t[..g], t[g..];
    shut := MaskShuts(q, t);
    Assoc(v, sp, r);
    assert t == sp + r;
    MaskedFrom(q, v + t, v + sp, r, |v| + g);
    Assoc(v, sp, MASK + Pass(q, r[Run(r)..]));
    assert StartsValue(v + t);
    var stem, on := HidesIff(q, pre, v + t);
    Assoc(pre, v, t);
    Assoc(Stem(q, pre), v, shut);
  }

  /** A value that makes the pass take what follows for its own changes more than itself. */
  lemma {:induction false} OpenTells(qs: seq<Prefix>, pre: string, v: string, t: string)
    requires AllWellFormed(qs) && qs != [] && IsValueText(v) && EndsValue(t) && !Shut(t)
    requires !Hides(qs[0], pre) && HidesAll(qs, pre)
    requires PrefixEnd(qs[0], v + t) == Some(|v| + Gap(t))
    ensures Passes(qs, pre + v + t) != Passes(qs, pre + PROBE + t)
  {
    var a, later := Stem(qs[0], pre), qs[1..];
    var shut := OpenPass(qs[0], pre, v, t);
    var hidden := Passes(qs, pre + PROBE);
    assert Passes(later, a + PROBE) == hidden;
    ShutForgets(later, a, v, shut);
    PassesSplit(qs, pre + PROBE, t);
    PassesKeepShut(later, shut);
    PassesKeepShut(qs, t);
    CancelFront(hidden, Passes(later, shut), Passes(qs, t));
  }

  lemma CancelFront(a: string, b: string, c: string)
    ensures a + b == a + c ==> b == c
  {
    if a + b == a + c {
      assert b == (a + b)[|a|..] && c == (a + c)[|a|..];
    }
  }

  /** Whatever the value, the text after the passes is the same. */
  ghost predicate Forgets(qs: seq<Prefix>, pre: string, t: string) {
    forall v, w :: IsValueText(v) && IsValueText(w) ==> Passes(qs, pre + v + t) == Passes(qs, pre + w + t)
  }

  lemma ShownIsNotForgotten(qs: seq<Prefix>, pre: string, t: string)
    requires AllWellFormed(qs) && EndsValue(t) && !HidesAll(qs, pre)
    ensures !Forgets(qs, pre, t)
  {
    var a, b := pre + PROBE, pre + "]";
    ProbeIsValue();
    assert IsValueText("]");
    PassesSplit(qs, a, t);
    PassesSplit(qs, b, t);
    BracketsStay(qs, b);
    Cancel(Passes(qs, a), Passes(qs, b), Passes(qs, t));
  }

  lemma Cancel(a: string, b: string, c: string)
    ensures a + c == b + c ==> a == b
  {
    if a + c == b + c {
      assert a == (a + c)[..|a|] && b == (b + c)[..|b|];
    }
  }

  lemma {:induction false} ForgottenIff(qs: seq<Prefix>, pre: string, t: string, v: string)
    requires AllWellFormed(qs) && qs != [] && EndsValue(t) && IsValueText(v)
    requires !Shut(t) ==> PrefixEnd(qs[0], v + t) == Some(|v| + Gap(t))
    ensures Forgets(qs, pre, t) <==> Hides(qs[0], pre) || (HidesAll(qs, pre) && Shut(t))
  {
    ProbeIsValue();
    if Hides(qs[0], pre) {
      forall v, w | IsValueText(v) && IsValueText(w) ensures Passes(qs, pre + v + t) == Passes(qs, pre + w + t) {
        HiddenByFirst(qs, pre, v, t);
        HiddenByFirst(qs, pre, w, t);
      }
    } else if !HidesAll(qs, pre) {
      ShownIsNotForgotten(qs, pre, t);
    } else if Shut(t) {
      forall v, w | IsValueText(v) && IsValueText(w) ensures Passes(qs, pre + v + t) == Passes(qs, pre + w + t) {
        ShutForgets(qs, pre, v, t);
        ShutForgets(qs, pre, w, t);
      }
    } else {
      OpenTells(qs, pre, v, t);
    }
  }

  // ---------- The three patterns ----------

  lemma {:induction false} SpellsSpaces(sp: string)
    requires forall i :: 0 <= i < |sp| ==> IsSpace(sp[i])
    ensures Spells([Star(Space)], sp)
  {
    if sp == "" { assert Spells([Star(Space)][1..], sp); } else { SpellsSpaces(sp[1..]); }
  }

  lemma SpellsEnd(sp: string)
    requires sp != "" && forall i :: 0 <= i < |sp| ==> IsSpace(sp[i])
    ensures Spells([One(Space), Star(Space)], sp)
  {
    assert [One(Space), Star(Space)][1..] == [Star(Space)];
    SpellsSpaces(sp[1..]);
  }

  lemma SpellsColon(rest: Prefix, text: string)
    requires Spells(rest, text)
    ensures Spells([Star(Space), One(Among(":")), Star(Space)] + rest, ":" + text)
  {
    var p: Prefix := [Star(Space), One(Among(":")), Star(Space)] + rest;
    var u := ":" + text;
    assert p[1..][1..][1..] == rest && u[1..] == text;
    assert Spells(p[1..][1..], u[1..]);
    assert Spells(p[1..], u);
  }

  /** A value that makes what follows white space an authorization value. */
  function Bait(): string {
    "authorization" + (":" + "bearer")
  }

  lemma BaitIsValue()
    ensures IsValueText(Bait())
  {
    var v := Bait();
    forall i | 0 <= i < |v| ensures IsValue(v[i]) {
      assert IsLower(v[i]) || v[i] == ':';
    }
  }

  lemma {:induction false} WordsReach(a: string, b: string, sp: string)
    requires (forall c <- a + b :: IsLower(c)) && sp != "" && forall i :: 0 <= i < |sp| ==> IsSpace(sp[i])
    ensures
      var gap: Prefix, end: Prefix := [Star(Space), One(Among(":")), Star(Space)], [One(Space), Star(Space)];
      (forall c <- a :: IsLower(c)) && (forall c <- b :: IsLower(c))
      && Spells(Word(a) + (gap + (Word(b) + end)), (a + (":" + b)) + sp)
  {
    var gap: Prefix, end: Prefix := [Star(Space), One(Among(":")), Star(Space)], [One(Space), Star(Space)];
    SpellsEnd(sp);
    Redaction.SpellsWord(b, end, sp);
    SpellsColon(Word(b) + end, b + sp);
    Redaction.SpellsWord(a, gap + (Word(b) + end), ":" + (b + sp));
    Assoc(":", b, sp);
    Assoc(a, ":" + b, sp);
  }

  lemma BearerIs(a: string, b: string)
    requires a == "authorization" && b == "bearer"
    ensures forall c <- a + b :: IsLower(c)
    ensures (forall c <- a :: IsLower(c)) && (forall c <- b :: IsLower(c))
    ensures Bearer() == Word(a) + ([Star(Space), One(Among(":")), Star(Space)] + (Word(b) + [One(Space), Star(Space)]))
  {
  }

  lemma {:induction false} BearerReaches(sp: string)
    requires sp != "" && forall i :: 0 <= i < |sp| ==> IsSpace(sp[i])
    ensures Spells(Bearer(), Bait() + sp)
  {
    BearerIs("authorization", "bearer");
    WordsReach("authorization", "bearer", sp);
  }

  lemma BaitMatches(t: string)
    requires EndsValue(t) && !Shut(t)
    ensures PrefixEnd(Bearer(), Bait() + t) == Some(|Bait()| + Gap(t))
  {
    var v, g := Bait(), Gap(t);
    BearerWellFormed();
    GapIsMaximal(t);
    BearerReaches(t[..g]);
    assert (v + t)[..|v| + g] == v + t[..g] && (v + t)[|v| + g] == t[g];
    PrefixEndComplete(Bearer(), v + t, |v| + g);
  }

  /** Redaction tells nothing about a value, to whoever knows the text around it, exactly when it is an
      authorization value, or some pass hides it and the next value after the white space behind it,
      if there is one, is a mask already. */
  lemma ValueIsForgottenIff(pre: string, t: string)
    requires EndsValue(t)
    ensures Forgets(Prefixes(), pre, t) <==>
            Hides(Bearer(), pre) || (HidesAll(Prefixes(), pre) && Shut(t))
  {
    PrefixesWellFormed();
    BaitIsValue();
    if !Shut(t) { BaitMatches(t); }
    ForgottenIff(Prefixes(), pre, t, Bait());
  }

  /** So a value that is forgotten leaves no trace in the redacted text. */
  lemma ForgottenIsForgotten(w: char -> bool, pre: string, u: string, v: string, t: string)
    requires EndsValue(t) && IsValueText(u) && IsValueText(v)
    requires Hides(Bearer(), pre) || (HidesAll(Prefixes(), pre) && Shut(t))
    ensures Redaction.Redacted(w, pre + u + t) == Redaction.Redacted(w, pre + v + t)
  {
    ValueIsForgottenIff(pre, t);
    Redaction.RedactedIsPasses(w, pre + u + t);
    Redaction.RedactedIsPasses(w, pre + v + t);
  }

  // ---------- Two cases in point ----------

  /** The first two letters of the pattern do not follow one another in `s`. */
  ghost predicate NeverBegins(q: Prefix, s: string)
    requires |q| >= 2
  {
    forall i :: 0 <= i < |s| - 1 ==> BeginsNot(q, s[i], s[i + 1])
  }

  predicate BeginsNot(q: Prefix, c: char, d: char)
    requires |q| >= 2
  {
    !In(c, q[0].cls) || !In(d, q[1].cls)
  }

  lemma NeverBegunIsKept(q: Prefix, s: string)
    requires WellFormed(q) && NeverBegins(q, s)
    ensures Pass(q, s) == s
  {
    forall i | 0 <= i < |s| ensures PrefixEnd(q, s[i..]).None? {
      assert |s[i..]| > 1 ==> s[i..][1..][0] == s[i + 1] && BeginsNot(q, s[i], s[i + 1]);
      if PrefixEnd(q, s[i..]).Some? { PrefixShape(q, s[i..]); }
    }
    assert s == s + "";
    UnmatchedKept(q, s, s, "");
  }

  lemma BearerNeverBegins(s: string)
    requires forall i :: 0 <= i < |s| ==> s[i] != 'u' && s[i] != 'U'
    ensures NeverBegins(Bearer(), s)
  {
    assert Bearer()[1] == One(Letter('u'));
  }

  /** After a password, an equals sign and a word tell whether the password ended in `api_key`. */
  lemma LaterTextTells()
    ensures !Forgets(Prefixes(), "password=", " = hunter2")
  {
    var pre, t := "password=", " = hunter2";
    BearerNeverBegins(pre + PROBE);
    OpenGap(t);
    BearerWellFormed();
    NeverBegunIsKept(Bearer(), pre + PROBE);
    EndsInTail(pre, PROBE);
    ValueIsForgottenIff(pre, t);
  }

  lemma OpenGap(t: string)
    requires |t| >= 2 && t[0] == ' ' && t[1] == '='
    ensures EndsValue(t) && !Shut(t)
  {
    assert t[1..][0] == '=' && Gap(t[1..]) == 0;
    assert Gap(t) == 1;
  }

  lemma SpellsApiKey()
    ensures Spells(ApiKey(), "api" + ("_" + ("key" + "=")))
  {
    var sep: Prefix := [Star(Space), One(Among("=:")), Star(Space)];
    assert sep[1..][1..] == [Star(Space)] && "="[1..] == "";
    SpellsSpaces("");
    assert Spells(sep[1..], "=");
    Redaction.SpellsWord("key", sep, "=");
    var rest, text := [Opt(Among("_-"))] + (Word("key") + sep), "_" + ("key" + "=");
    assert rest[1..] == Word("key") + sep && text[1..] == "key" + "=";
    assert Spells(rest, text);
    Redaction.SpellsWord("api", rest, text);
    assert Word("api") + rest == ApiKey();
  }

  /** A text that the first pass leaves alone, in which the second masks a word that begins the third
      pattern: the passes have nothing more to say about what follows. */
  lemma MaskedWordShows(head: string, word: string, tail: string)
    requires Spells(ApiKey(), head) && IsValueText(word) && EndsValue(tail) && NeverBegins(ApiKey(), tail)
    requires NeverBegins(Bearer(), head + (word + tail)) && NeverBegins(Password(), head + (MASK + tail))
    ensures Passes(Prefixes(), head + (word + tail)) == head + (MASK + tail)
  {
    var qs, s, o := Prefixes(), head + (word + tail), head + (MASK + tail);
    PrefixesWellFormed();
    NeverBegunIsKept(Bearer(), s);
    ApiKeyMasks(head, word, tail);
    NeverBegunIsKept(Password(), o);
    assert qs[1..] == [ApiKey(), Password()] && qs[1..][1..] == [Password()] && qs[1..][1..][1..] == [];
    assert Passes(qs[1..], s) == Passes(qs[1..][1..], o) == o;
  }

  lemma ApiKeyMasks(head: string, word: string, tail: string)
    requires Spells(ApiKey(), head) && IsValueText(word) && EndsValue(tail) && NeverBegins(ApiKey(), tail)
    ensures Pass(ApiKey(), head + (word + tail)) == head + (MASK + tail)
  {
    var q, u, r := ApiKey(), head + (word + tail), word + tail;
    ApiKeyWellFormed();
    assert u[..|head|] == head && u[|head|] == r[0] == word[0];
    PrefixEndComplete(q, u, |head|);
    MaskedFrom(q, u, head, r, |head|);
    ValueRun(word, tail);
    NeverBegunIsKept(q, tail);
  }

  lemma PasswordNeverBegins(s: string)
    requires forall i :: 0 <= i < |s| ==> (s[i] != 'p' && s[i] != 'P') || (i + 1 < |s| && s[i + 1] == 'i')
    ensures NeverBegins(Password(), s)
  {
    assert Password()[0] == One(Letter('p')) && Password()[1] == One(Letter('a'));
  }

  /** The API key pass masks the word `password`, and so what follows it is not hidden at all. */
  lemma MaskedWordShowsPassword()
    ensures !HidesAll(Prefixes(), "api" + ("_" + ("key" + "=")) + "password = ")
  {
    var head, word, tail := "api" + ("_" + ("key" + "=")), "password", " = [";
    SpellsApiKey();
    BearerNeverBegins(head + (word + tail));
    PasswordNeverBegins(head + (MASK + tail));
    MaskedWordShows(head, word, tail);
    assert head + "password = " + PROBE == head + (word + tail);
  }
}
