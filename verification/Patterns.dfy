/** The secret patterns of the evidence ingestor as small regular expressions.

    A prefixed pattern is `(prefix)[^\s,]+`: the prefix is kept, the maximal run of value
    characters after it is the secret. `Spells` is the language of a prefix; `PrefixEnd` is
    the left-to-right greedy matcher that finds where the prefix ends. */
module Patterns {
  import opened Wrappers

  // ---------- Character classes ----------

  /** `\s` for Unicode strings: the characters for which `str.isspace` holds. */
  predicate IsSpace(c: char) {
    var n := c as int;
    || 9 <= n <= 13 || 28 <= n <= 32 || n == 0x85 || n == 0xA0 || n == 0x1680
    || 0x2000 <= n <= 0x200A || n == 0x2028 || n == 0x2029 || n == 0x202F || n == 0x205F || n == 0x3000
  }

  /** `[^\s,]` */
  predicate IsValue(c: char) {
    !IsSpace(c) && c != ','
  }

  predicate IsLower(c: char) {
    'a' <= c <= 'z'
  }

  /** What the literal `letter` matches under `(?i)`: both ASCII cases, and the four non-ASCII
      characters whose simple case folding is an ASCII letter. */
  predicate Folds(c: char, letter: char)
    requires IsLower(letter)
  {
    || c == letter
    || c as int + 32 == letter as int
    || (letter == 'i' && (c == '\U{0130}' || c == '\U{0131}'))
    || (letter == 'k' && c == '\U{212A}')
    || (letter == 's' && c == '\U{017F}')
  }

  type Lower = c: char | IsLower(c) witness 'a'

  datatype CharClass = Letter(lower: Lower) | Space | Among(members: string)

  predicate In(c: char, cls: CharClass) {
    match cls
    case Letter(l) => Folds(c, l)
    case Space => IsSpace(c)
    case Among(m) => c in m
  }

  /** Punctuation that is neither a letter, nor white space, nor a comma, nor a bracket. */
  predicate IsPunctuation(c: char) {
    c == ':' || c == '=' || c == '_' || c == '-'
  }

  /** A syntactic test that two classes share no character. */
  predicate Apart(a: CharClass, b: CharClass) {
    match (a, b)
    case (Letter(x), Letter(y)) => x != y
    case (Among(m), Among(k)) => forall c <- m :: c !in k
    case (Among(m), _) => forall c <- m :: IsPunctuation(c)
    case (_, Among(m)) => forall c <- m :: IsPunctuation(c)
    case (Space, Space) => false
    case _ => true
  }

  lemma ApartIsDisjoint(a: CharClass, b: CharClass, c: char)
    requires Apart(a, b) && In(c, a)
    ensures !In(c, b)
  {
  }

  // ---------- Patterns ----------

  datatype Atom = One(cls: CharClass) | Opt(cls: CharClass) | Star(cls: CharClass)

  type Prefix = seq<Atom>

  /** `t` is in the language of `p`. */
  ghost predicate Spells(p: Prefix, t: string)
    decreases |t|, |p|
  {
    if p == [] then t == "" else
    match p[0]
    case One(c) => t != "" && In(t[0], c) && Spells(p[1..], t[1..])
    case Opt(c) => Spells(p[1..], t) || (t != "" && In(t[0], c) && Spells(p[1..], t[1..]))
    case Star(c) => Spells(p[1..], t) || (t != "" && In(t[0], c) && Spells(p, t[1..]))
  }

  /** Greedy matching of `p` followed by at least one value character; where the prefix ends. */
  function PrefixEnd(p: Prefix, s: string): (r: Option<nat>)
    ensures r.Some? ==> r.value < |s|
    decreases |s|, |p|
  {
    if p == [] then
      if s != "" && IsValue(s[0]) then Some(0) else None
    else if s != "" && In(s[0], p[0].cls) then
      match PrefixEnd(if p[0].Star? then p else p[1..], s[1..])
      case None => None
      case Some(e) => Some(e + 1)
    else if p[0].One? then None
    else PrefixEnd(p[1..], s)
  }

  /** No character of `cls` can begin a text spelled by `p` and followed by a value character. */
  predicate Separate(cls: CharClass, p: Prefix) {
    if p == [] then cls.Space?
    else Apart(cls, p[0].cls) && (p[0].One? || Separate(cls, p[1..]))
  }

  /** Every optional or repeated atom is decided by the next character alone. */
  predicate Unambiguous(p: Prefix) {
    p == [] || ((p[0].One? || Separate(p[0].cls, p[1..])) && Unambiguous(p[1..]))
  }

  /** What the matcher finds is spelled by the prefix. */
  lemma {:induction false} PrefixEndSound(p: Prefix, s: string)
    requires PrefixEnd(p, s).Some?
    ensures Spells(p, s[..PrefixEnd(p, s).value]) && IsValue(s[PrefixEnd(p, s).value])
    decreases |s|, |p|
  {
    if p != [] {
      if s != "" && In(s[0], p[0].cls) {
        PrefixEndSound(if p[0].Star? then p else p[1..], s[1..]);
        var e := PrefixEnd(p, s).value;
        assert s[..e][1..] == s[1..][..e - 1];
      } else {
        PrefixEndSound(p[1..], s);
      }
    }
  }

  lemma {:induction false} SeparateStart(cls: CharClass, p: Prefix, s: string, e: nat)
    requires Separate(cls, p) && e < |s| && IsValue(s[e]) && Spells(p, s[..e])
    ensures !In(s[0], cls)
  {
    if p != [] {
      if e > 0 && In(s[0], p[0].cls) {
        if In(s[0], cls) {
          ApartIsDisjoint(cls, p[0].cls, s[0]);
        }
      } else {
        SeparateStart(cls, p[1..], s, e);
      }
    }
  }

  /** For unambiguous prefixes greedy matching is complete: the regular expression matches with
      its prefix ending at `e` exactly when the matcher says so, hence the engine never has a
      second way to match and backtracking changes nothing. */
  lemma {:induction false} PrefixEndComplete(p: Prefix, s: string, e: nat)
    requires Unambiguous(p) && e < |s| && IsValue(s[e]) && Spells(p, s[..e])
    ensures PrefixEnd(p, s) == Some(e)
    decreases |s|, |p|
  {
    if p != [] {
      if In(s[0], p[0].cls) {
        if !p[0].One? && Spells(p[1..], s[..e]) {
          SeparateStart(p[0].cls, p[1..], s, e);
        }
        assert s[..e][1..] == s[1..][..e - 1];
        PrefixEndComplete(if p[0].Star? then p else p[1..], s[1..], e - 1);
      } else {
        PrefixEndComplete(p[1..], s, e);
      }
    }
  }
}
