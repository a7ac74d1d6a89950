/** `InvestigationService.related_cases` and the token search it shares its tokens with. */
module RelatedCases {
  import opened Wrappers
  import opened Counting
  import opened Sorting
  import Strings

  // ---------- Tokens ----------

  /** Texts are case-folded already. */
  predicate IsWordChar(c: char) {
    'a' <= c <= 'z' || '0' <= c <= '9' || c == '_'
  }

  const STOPWORDS := {"the", "and", "for", "with", "from"}

  predicate IsToken(t: string) {
    |t| >= 3 && t !in STOPWORDS
  }

  /** `s[i..j]` is a run of word characters that cannot be extended. */
  ghost predicate IsRun(s: string, i: nat, j: nat) {
    && i < j <= |s| && (forall k :: i <= k < j ==> IsWordChar(s[k]))
    && (i == 0 || !IsWordChar(s[i - 1])) && (j == |s| || !IsWordChar(s[j]))
  }

  /** Where the run of word characters at `i` ends. */
  function RunEnd(s: string, i: nat): (j: nat)
    requires i <= |s|
    ensures i <= j <= |s| && (forall k :: i <= k < j ==> IsWordChar(s[k])) && (j == |s| || !IsWordChar(s[j]))
    decreases |s| - i
  {
    if i == |s| || !IsWordChar(s[i]) then i else RunEnd(s, i + 1)
  }

  /** The tokens of `s[i..]`, which starts no run in the middle. */
  function TokensFrom(s: string, i: nat): set<string>
    requires i <= |s|
    decreases |s| - i
  {
    if i == |s| then {} else
      var j := RunEnd(s, i);
      if j == i then TokensFrom(s, i + 1)
      else (if IsToken(s[i..j]) then {s[i..j]} else {}) + TokensFrom(s, j)
  }

  function Tokens(s: string): set<string> {
    TokensFrom(s, 0)
  }

  ghost predicate IsTokenFrom(t: string, s: string, at: nat) {
    IsToken(t) && exists i: nat, j: nat :: at <= i && IsRun(s, i, j) && s[i..j] == t
  }

  lemma {:induction false} TokensFromIff(s: string, at: nat, t: string)
    requires at <= |s| && (at == 0 || at == |s| || !IsWordChar(s[at - 1]) || !IsWordChar(s[at]))
    ensures t in TokensFrom(s, at) <==> IsTokenFrom(t, s, at)
    decreases |s| - at
  {
    if at < |s| {
      var end := RunEnd(s, at);
      if end == at {
        TokensFromIff(s, at + 1, t);
        assert forall j: nat :: !IsRun(s, at, j);
      } else {
        TokensFromIff(s, end, t);
        assert IsRun(s, at, end);
        forall i: nat, j: nat | at <= i && IsRun(s, i, j) ensures (i == at && j == end) || i >= end {
        }
      }
    }
  }

  const WORD_CHARS := "abcdefghijklmnopqrstuvwxyz0123456789_"

  /** `s[i..j]` is a run of these characters, with none before or after it. */
  ghost predicate IsWholeRun(s: string, i: nat, j: nat) {
    && i < j <= |s| && (forall k :: i <= k < j ==> s[k] in WORD_CHARS)
    && (i > 0 ==> s[i - 1] !in WORD_CHARS) && (j < |s| ==> s[j] !in WORD_CHARS)
  }

  lemma WordCharIsListed(c: char)
    ensures IsWordChar(c) <==> c in WORD_CHARS
  {
  }

  lemma WholeRunIff(s: string, i: nat, j: nat)
    ensures IsRun(s, i, j) <==> IsWholeRun(s, i, j)
  {
    forall c: char ensures IsWordChar(c) <==> c in WORD_CHARS { WordCharIsListed(c); }
  }

  /** The tokens of a text are its maximal runs of word characters, three or longer, stop words left out. */
  lemma TokensIff(s: string, t: string)
    ensures t in Tokens(s) <==>
            && |t| >= 3 && t != "the" && t != "and" && t != "for" && t != "with" && t != "from"
            && exists i: nat, j: nat :: IsWholeRun(s, i, j) && s[i..j] == t
  {
    TokensFromIff(s, 0, t);
    forall i: nat, j: nat ensures IsRun(s, i, j) <==> IsWholeRun(s, i, j) { WholeRunIff(s, i, j); }
  }

  // ---------- Similarity ----------

  /** The Jaccard index of two token sets. */
  function Similarity(a: set<string>, b: set<string>): real {
    |a * b| as real / (if |a + b| > 1 then |a + b| else 1) as real
  }

  lemma SimilarityIsSymmetric(a: set<string>, b: set<string>)
    ensures Similarity(a, b) == Similarity(b, a)
  {
    assert a * b == b * a && a + b == b + a;
  }

  lemma SubsetIsSmaller(a: set<string>, b: set<string>)
    requires a <= b
    ensures |a| <= |b|
  {
    assert b == a + (b - a);
  }

  lemma QuotientWithin(n: int, d: int)
    requires 0 <= n <= d && d >= 1
    ensures 0.0 <= n as real / d as real <= 1.0 && (n as real / d as real == 1.0 <==> n == d)
  {
  }

  lemma EqualWhenSameSize(a: set<string>, b: set<string>)
    requires a <= b && |a| == |b|
    ensures a == b
  {
    if a != b {
      var x :| x in b && x !in a;
      SubsetIsSmaller(a + {x}, b);
    }
  }

  /** Between 0 and 1, and 1 only for the same non-empty tokens. */
  lemma SimilarityIsBounded(a: set<string>, b: set<string>)
    ensures 0.0 <= Similarity(a, b) <= 1.0
    ensures Similarity(a, b) == 1.0 <==> a == b && a != {}
  {
    SubsetIsSmaller(a * b, a + b);
    QuotientWithin(|a * b|, if |a + b| > 1 then |a + b| else 1);
    if Similarity(a, b) == 1.0 {
      EqualWhenSameSize(a * b, a + b);
      assert a <= a + b && b <= a + b && a * b <= a && a * b <= b;
      assert |a * b| >= 1;
    }
    if a == b && a != {} {
      assert a * b == a && a + b == a;
    }
  }

  /** To four places, halves to even. */
  function Round4(x: real): real {
    var scaled := x * 10000.0;
    var n, rest := scaled.Floor, scaled - scaled.Floor as real;
    (if rest < 0.5 || (rest == 0.5 && n % 2 == 0) then n else n + 1) as real / 10000.0
  }

  lemma Round4Within(x: real)
    requires 0.0 <= x <= 1.0
    ensures 0.0 <= Round4(x) <= 1.0
  {
  }

  // ---------- Related cases ----------

  /** `text`: title and description; an absent external id and the empty one are both falsy. */
  datatype Case = Case(tenant: string, caseId: string, externalId: string, source: string, text: string)

  datatype Relation = DUPLICATE | RELATED | POSSIBLE

  datatype Match = Match(caseId: string, externalId: string, relation: Relation, similarity: real)

  /** What one candidate contributes. */
  function MatchOf(case_: Case, candidate: Case): Option<Match> {
    if candidate.caseId == case_.caseId then None
    else if case_.externalId != "" && candidate.externalId == case_.externalId && case_.source == candidate.source then
      Some(Match(candidate.caseId, candidate.externalId, DUPLICATE, 1.0))
    else
      var similarity := Similarity(Tokens(case_.text), Tokens(candidate.text));
      if similarity >= 0.15 then
        Some(Match(candidate.caseId, candidate.externalId, if similarity >= 0.35 then RELATED else POSSIBLE,
                   Round4(similarity)))
      else None
  }

  /** The two cases are known under the same external id to the same system. */
  predicate SameTicket(a: Case, c: Case) {
    a.externalId != "" && a.externalId == c.externalId && a.source == c.source
  }

  /** Of the tokens of both, at least `percent` in a hundred are shared. */
  predicate Share(a: Case, c: Case, percent: nat) {
    var shared, all := Tokens(a.text) * Tokens(c.text), Tokens(a.text) + Tokens(c.text);
    shared != {} && 100 * |shared| >= percent * |all|
  }

  /** Another case with the same ticket, or with fifteen in a hundred tokens shared. */
  predicate IsRelatedTo(a: Case, c: Case) {
    c.caseId != a.caseId && (SameTicket(a, c) || Share(a, c, 15))
  }

  /** Twice the distance is no more than `all`. */
  predicate Within(a: int, b: int, all: int) {
    -all <= 2 * (a - b) <= all
  }

  /** To four places, `x` is the share of the tokens in common. */
  ghost predicate IsShareOf(x: real, a: Case, c: Case) {
    var shared, all := |Tokens(a.text) * Tokens(c.text)|, |Tokens(a.text) + Tokens(c.text)|;
    exists n: int :: x == n as real / 10000.0 && Within(n * all, 10000 * shared, all)
  }

  /** What is reported of a related case: a duplicate exactly for the same ticket, and then with similarity one;
      otherwise related exactly with thirty-five in a hundred tokens shared, and the share as similarity. */
  ghost predicate Tells(a: Case, c: Case, m: Match) {
    && m.caseId == c.caseId && m.externalId == c.externalId
    && (m.relation.DUPLICATE? <==> SameTicket(a, c))
    && (m.relation.RELATED? <==> !SameTicket(a, c) && Share(a, c, 35))
    && if SameTicket(a, c) then m.similarity == 1.0 else IsShareOf(m.similarity, a, c)
  }

  lemma {:induction false} ShareIff(a: Case, c: Case)
    ensures Share(a, c, 15) <==> Similarity(Tokens(a.text), Tokens(c.text)) >= 0.15
    ensures Share(a, c, 35) <==> Similarity(Tokens(a.text), Tokens(c.text)) >= 0.35
  {
    SharesIff(Tokens(a.text), Tokens(c.text), 15);
    SharesIff(Tokens(a.text), Tokens(c.text), 35);
  }

  lemma SharesIff(a: set<string>, b: set<string>, percent: nat)
    requires percent > 0
    ensures Similarity(a, b) >= percent as real / 100.0 <==> a * b != {} && 100 * |a * b| >= percent * |a + b|
  {
    SubsetIsSmaller(a * b, a + b);
    if t :| t in a * b {
      SubsetIsSmaller({t}, a * b);
      QuotientIff(|a * b|, |a + b|, percent);
    }
  }

  lemma QuotientIff(n: nat, d: nat, percent: nat)
    requires d >= 1
    ensures n as real / d as real >= percent as real / 100.0 <==> 100 * n >= percent * d
  {
    var q := n as real / d as real;
    assert q * d as real == n as real;
    if q >= percent as real / 100.0 {
      assert q * d as real >= (percent as real / 100.0) * d as real;
    } else {
      assert q * d as real < (percent as real / 100.0) * d as real;
    }
  }

  /** A match tells what there is to tell, of just the related cases. */
  lemma {:induction false} MatchTells(a: Case, c: Case)
    ensures MatchOf(a, c).Some? <==> IsRelatedTo(a, c)
    ensures MatchOf(a, c).Some? ==> Tells(a, c, MatchOf(a, c).value)
  {
    ShareIff(a, c);
    var x := Similarity(Tokens(a.text), Tokens(c.text));
    if c.caseId != a.caseId && !SameTicket(a, c) && x >= 0.15 {
      Round4IsShare(a, c);
    }
  }

  lemma Round4IsShare(a: Case, c: Case)
    requires Share(a, c, 15)
    ensures IsShareOf(Round4(Similarity(Tokens(a.text), Tokens(c.text))), a, c)
  {
    var shared, all := |Tokens(a.text) * Tokens(c.text)|, |Tokens(a.text) + Tokens(c.text)|;
    var x := Similarity(Tokens(a.text), Tokens(c.text));
    SubsetIsSmaller(Tokens(a.text) * Tokens(c.text), Tokens(a.text) + Tokens(c.text));
    var n := Nearest(x);
    NearestIsWithin(x, shared, all, n);
    assert Round4(x) == n as real / 10000.0;
  }

  /** The four places, as a whole number. */
  function Nearest(x: real): int {
    var scaled := x * 10000.0;
    var n, rest := scaled.Floor, scaled - scaled.Floor as real;
    if rest < 0.5 || (rest == 0.5 && n % 2 == 0) then n else n + 1
  }

  lemma NearestIsNear(x: real)
    ensures -0.5 <= Nearest(x) as real - x * 10000.0 <= 0.5
  {
  }

  lemma {:induction false} NearestIsWithin(x: real, shared: int, all: int, n: int)
    requires all >= 1 && x == shared as real / all as real && n == Nearest(x)
    ensures Within(n * all, 10000 * shared, all)
  {
    NearestIsNear(x);
    TimesNear(n as real - x * 10000.0, n as real, x, all as real, shared as real);
    TimesAsReal(n, all);
    WithinAsReals(n * all, shared, all);
  }

  lemma TimesNear(d: real, n: real, x: real, m: real, y: real)
    requires d == n - x * 10000.0 && -0.5 <= d <= 0.5 && m > 0.0 && x == y / m
    ensures -0.5 * m <= n * m - 10000.0 * y <= 0.5 * m
  {
    TimesWithin(d, m);
    TimesApart(d, n, x, m, y);
  }

  lemma TimesAsReal(a: int, b: int)
    ensures (a * b) as real == a as real * b as real
  {
  }

  lemma WithinAsReals(p: int, q: int, all: int)
    requires -0.5 * all as real <= p as real - 10000.0 * q as real <= 0.5 * all as real
    ensures Within(p, 10000 * q, all)
  {
  }

  lemma TimesWithin(d: real, m: real)
    requires -0.5 <= d <= 0.5 && m >= 0.0
    ensures -0.5 * m <= d * m <= 0.5 * m
  {
  }

  lemma TimesApart(d: real, n: real, x: real, m: real, y: real)
    requires m > 0.0 && x == y / m && d == n - x * 10000.0
    ensures d * m == n * m - 10000.0 * y
  {
    assert x * m == y;
    assert (x * 10000.0) * m == 10000.0 * (x * m);
    assert d * m == (n - x * 10000.0) * m == n * m - (x * 10000.0) * m;
  }

  /** Sort key `(-similarity, case_id)`. */
  function ByMatch(): (Match, Match) -> bool {
    (a: Match, b: Match) =>
      a.similarity > b.similarity || (a.similarity == b.similarity && Strings.StringLe(a.caseId, b.caseId))
  }

  lemma ByMatchIsLinear()
    ensures Linear(ByMatch())
  {
    var le := ByMatch();
    forall x, y ensures le(x, y) || le(y, x) { Strings.StringLeTotal(x.caseId, y.caseId); }
    forall x, y, z | le(x, y) && le(y, z) ensures le(x, z) {
      if x.similarity == y.similarity == z.similarity { Strings.StringLeTransitive(x.caseId, y.caseId, z.caseId); }
    }
  }

  /** Python's `s[:limit]`. */
  function Take<T>(s: seq<T>, limit: int): seq<T> {
    if limit >= |s| then s else if limit >= 0 then s[..limit] else if |s| + limit >= 0 then s[..|s| + limit] else []
  }

  /** The match of every candidate that has one. */
  function MatchesIn(case_: Case, cases: seq<Case>): seq<Match> {
    if cases == [] then [] else
      var init, last := MatchesIn(case_, cases[..|cases| - 1]), MatchOf(case_, cases[|cases| - 1]);
      if last.Some? then init + [last.value] else init
  }

  /** The answer is the beginning of the matches, best first. */
  ghost predicate AreRelated(case_: Case, cases: seq<Case>, limit: int, r: seq<Match>) {
    exists all | multiset(all) == multiset(MatchesIn(case_, cases)) && Sorted(all, ByMatch()) :: r == Take(all, limit)
  }

  /** The more similar one first, and of two alike the one whose case id comes first. */
  ghost predicate GoesBefore(a: Match, b: Match) {
    a.similarity > b.similarity
    || (a.similarity == b.similarity && exists i :: Strings.ComesBefore(a.caseId, b.caseId, i))
  }

  lemma GoesBeforeIff(a: Match, b: Match)
    ensures ByMatch()(a, b) <==> GoesBefore(a, b)
  {
    Strings.StringLeIff(a.caseId, b.caseId);
  }

  /** How many of `n` Python's `[:limit]` takes. */
  function Taken(limit: int, n: nat): int {
    if limit > n then n else if limit >= 0 then limit else if n + limit > 0 then n + limit else 0
  }

  function RelatedTo(a: Case): Case -> bool {
    (c: Case) => IsRelatedTo(a, c)
  }

  /** What an answer is: as many as there are related cases, or as the limit takes; each tells of a related case;
      the best come first, and before any that is left out. */
  ghost predicate IsAnswer(a: Case, cases: seq<Case>, limit: int, r: seq<Match>) {
    && |r| == Taken(limit, |Where(cases, RelatedTo(a))|)
    && (forall m <- r :: exists c <- cases :: IsRelatedTo(a, c) && Tells(a, c, m))
    && (forall i, j :: 0 <= i < j < |r| ==> GoesBefore(r[i], r[j]))
    && (forall c <- cases :: IsRelatedTo(a, c) ==>
        exists out :: Tells(a, c, out) && (out in r || forall m <- r :: GoesBefore(m, out)))
  }

  lemma {:induction false} MatchesAreCounted(a: Case, cases: seq<Case>)
    ensures |MatchesIn(a, cases)| == |Where(cases, RelatedTo(a))|
  {
    if cases != [] {
      var init, last := cases[..|cases| - 1], cases[|cases| - 1];
      MatchesAreCounted(a, init);
      MatchTells(a, last);
      assert cases == init + [last];
      WhereOneMore(init, last, RelatedTo(a));
    }
  }

  lemma RelatedAreAnswer(a: Case, cases: seq<Case>, limit: int, r: seq<Match>)
    requires AreRelated(a, cases, limit, r)
    ensures IsAnswer(a, cases, limit, r)
  {
    var all :| multiset(all) == multiset(MatchesIn(a, cases)) && Sorted(all, ByMatch()) && r == Take(all, limit);
    assert |all| == |multiset(all)| == |MatchesIn(a, cases)| && r <= all;
    MatchesAreCounted(a, cases);
    forall m | m in r ensures exists c <- cases :: IsRelatedTo(a, c) && Tells(a, c, m) {
      AnswerTells(a, cases, all, m);
    }
    forall i, j | 0 <= i < j < |r| ensures GoesBefore(r[i], r[j]) {
      assert all[i] == r[i] && all[j] == r[j] && ByMatch()(all[i], all[j]);
      GoesBeforeIff(r[i], r[j]);
    }
    forall c | c in cases && IsRelatedTo(a, c)
      ensures exists out :: Tells(a, c, out) && (out in r || forall m <- r :: GoesBefore(m, out))
    {
      var out := LeftOutComesAfter(a, cases, limit, r, all, c);
    }
  }

  lemma AnswerTells(a: Case, cases: seq<Case>, all: seq<Match>, m: Match)
    requires multiset(all) == multiset(MatchesIn(a, cases)) && m in all
    ensures exists c <- cases :: IsRelatedTo(a, c) && Tells(a, c, m)
  {
    SameMembers(all, MatchesIn(a, cases), m);
    MatchesInIff(a, cases, m);
    var c :| c in cases && MatchOf(a, c) == Some(m);
    MatchTells(a, c);
  }

  lemma LeftOutComesAfter(a: Case, cases: seq<Case>, limit: int, r: seq<Match>, all: seq<Match>, c: Case)
    returns (out: Match)
    requires multiset(all) == multiset(MatchesIn(a, cases)) && Sorted(all, ByMatch()) && r == Take(all, limit)
    requires c in cases && IsRelatedTo(a, c)
    ensures Tells(a, c, out) && (out in r || forall m <- r :: GoesBefore(m, out))
  {
    MatchTells(a, c);
    out := MatchOf(a, c).value;
    MatchesInIff(a, cases, out);
    SameMembers(all, MatchesIn(a, cases), out);
    if out !in r {
      forall m | m in r ensures GoesBefore(m, out) {
        TakeKeepsTheFirst(all, ByMatch(), limit, m, out);
        GoesBeforeIff(m, out);
      }
    }
  }

  /** `cases`: the store's cases of the tenant. */
  method FindRelated(case_: Case, cases: seq<Case>, limit: int) returns (r: seq<Match>)
    ensures AreRelated(case_, cases, limit, r) && IsAnswer(case_, cases, limit, r)
  {
    var matches: seq<Match> := [];
    for i := 0 to |cases|
      invariant matches == MatchesIn(case_, cases[..i])
    {
      var candidate := cases[i];
      assert cases[..i + 1][..i] == cases[..i];
      if candidate.caseId != case_.caseId {
        if case_.externalId != "" && candidate.externalId == case_.externalId && case_.source == candidate.source {
          matches := matches + [Match(candidate.caseId, candidate.externalId, DUPLICATE, 1.0)];
        } else {
          var similarity := Similarity(Tokens(case_.text), Tokens(candidate.text));
          if similarity >= 0.15 {
            var relation := if similarity >= 0.35 then RELATED else POSSIBLE;
            matches := matches + [Match(candidate.caseId, candidate.externalId, relation, Round4(similarity))];
          }
        }
      }
    }
    assert cases[..|cases|] == cases;
    ByMatchIsLinear();
    SortSorts(matches, ByMatch());
    var all := Sort(matches, ByMatch());
    r := Take(all, limit);
    RelatedAreAnswer(case_, cases, limit, r);
  }

  lemma {:induction false} MatchesInIff(case_: Case, cases: seq<Case>, m: Match)
    ensures m in MatchesIn(case_, cases) <==> exists c <- cases :: MatchOf(case_, c) == Some(m)
    ensures |MatchesIn(case_, cases)| <= |cases|
  {
    if cases != [] {
      var init, last := cases[..|cases| - 1], cases[|cases| - 1];
      MatchesInIff(case_, init, m);
      assert forall c :: c in cases <==> c in init || c == last by { assert cases == init + [last]; }
    }
  }

  /** Apart from the names, the relation is symmetric. */
  lemma RelationIsSymmetric(a: Case, b: Case)
    ensures MatchOf(a, b).Some? <==> MatchOf(b, a).Some?
    ensures MatchOf(a, b).Some? ==>
      && MatchOf(a, b).value.relation == MatchOf(b, a).value.relation
      && MatchOf(a, b).value.similarity == MatchOf(b, a).value.similarity
      && MatchOf(a, b).value.caseId == b.caseId && MatchOf(b, a).value.caseId == a.caseId
  {
    SimilarityIsSymmetric(Tokens(a.text), Tokens(b.text));
  }

  /** With room for all of them, one case is among the other's related cases exactly when the
      other is among its own. */
  lemma RelatedBothWays(cases: seq<Case>, a: Case, b: Case, limit: int, ra: seq<Match>, rb: seq<Match>)
    requires a in cases && b in cases && limit >= |cases|
    requires forall c <- cases, d <- cases :: c.caseId == d.caseId ==> c == d
    requires AreRelated(a, cases, limit, ra) && AreRelated(b, cases, limit, rb)
    ensures (exists m <- ra :: m.caseId == b.caseId) <==> (exists m <- rb :: m.caseId == a.caseId)
  {
    FoundIff(cases, a, b, limit, ra);
    FoundIff(cases, b, a, limit, rb);
    RelationIsSymmetric(a, b);
  }

  /** With room for all of them, the answers are the matches. */
  lemma {:induction false} EveryMatchIsAnswered(cases: seq<Case>, a: Case, limit: int, ra: seq<Match>, m: Match)
    requires limit >= |cases| && AreRelated(a, cases, limit, ra)
    ensures m in ra <==> m in MatchesIn(a, cases)
  {
    var all :| multiset(all) == multiset(MatchesIn(a, cases)) && Sorted(all, ByMatch()) && ra == Take(all, limit);
    assert |all| == |multiset(all)| == |MatchesIn(a, cases)|;
    MatchesInIff(a, cases, m);
    SameMembers(all, MatchesIn(a, cases), m);
  }

  lemma FoundIff(cases: seq<Case>, a: Case, b: Case, limit: int, ra: seq<Match>)
    requires b in cases && limit >= |cases|
    requires forall c <- cases, d <- cases :: c.caseId == d.caseId ==> c == d
    requires AreRelated(a, cases, limit, ra)
    ensures (exists m <- ra :: m.caseId == b.caseId) <==> MatchOf(a, b).Some?
  {
    if MatchOf(a, b).Some? {
      MatchesInIff(a, cases, MatchOf(a, b).value);
      EveryMatchIsAnswered(cases, a, limit, ra, MatchOf(a, b).value);
      assert MatchOf(a, b).value in ra;
    }
    if m :| m in ra && m.caseId == b.caseId {
      EveryMatchIsAnswered(cases, a, limit, ra, m);
      MatchesInIff(a, cases, m);
      var c :| c in cases && MatchOf(a, c) == Some(m);
      assert c == b;
    }
  }

  lemma SimilarityWithin(case_: Case, c: Case)
    requires MatchOf(case_, c).Some?
    ensures 0.0 <= MatchOf(case_, c).value.similarity <= 1.0
  {
    var similarity := Similarity(Tokens(case_.text), Tokens(c.text));
    SimilarityIsBounded(Tokens(case_.text), Tokens(c.text));
    Round4Within(similarity);
  }

  lemma TakeKeepsTheFirst<T(!new)>(all: seq<T>, le: (T, T) -> bool, limit: int, x: T, y: T)
    requires Sorted(all, le) && x in Take(all, limit) && y in all && y !in Take(all, limit)
    ensures x in all && le(x, y)
  {
    var r := Take(all, limit);
    var i :| 0 <= i < |r| && r[i] == x;
    var j :| 0 <= j < |all| && all[j] == y;
    assert r <= all && all[i] == x;
  }

  /** Every answer is a match, its similarity is between 0 and 1, and no match left out comes before it. */
  lemma RelatedAreBest(case_: Case, cases: seq<Case>, limit: int, r: seq<Match>, m: Match, c: Case)
    requires AreRelated(case_, cases, limit, r) && m in r
    ensures 0.0 <= m.similarity <= 1.0 && exists d <- cases :: MatchOf(case_, d) == Some(m)
    ensures c in cases && MatchOf(case_, c).Some? && MatchOf(case_, c).value !in r ==>
      GoesBefore(m, MatchOf(case_, c).value)
  {
    var all :| multiset(all) == multiset(MatchesIn(case_, cases)) && Sorted(all, ByMatch()) && r == Take(all, limit);
    SameMembers(all, MatchesIn(case_, cases), m);
    MatchesInIff(case_, cases, m);
    var d :| d in cases && MatchOf(case_, d) == Some(m);
    SimilarityWithin(case_, d);
    if c in cases && MatchOf(case_, c).Some? && MatchOf(case_, c).value !in r {
      var out := MatchOf(case_, c).value;
      MatchesInIff(case_, cases, out);
      SameMembers(all, MatchesIn(case_, cases), out);
      TakeKeepsTheFirst(all, ByMatch(), limit, m, out);
      GoesBeforeIff(m, out);
    }
  }

  // ---------- Token search ----------

  /** `haystack`: the values of the file's metadata, joined and case-folded. */
  datatype File = File(path: string, haystack: string)

  function Score(f: File, terms: set<string>): nat {
    |set t | t in terms && Strings.Contains(f.haystack, t)|
  }

  /** Sort key `(-score, path)`. */
  function ByScore(terms: set<string>): (File, File) -> bool {
    (a: File, b: File) =>
      Score(a, terms) > Score(b, terms) || (Score(a, terms) == Score(b, terms) && Strings.StringLe(a.path, b.path))
  }

  lemma ByScoreIsLinear(terms: set<string>)
    ensures Linear(ByScore(terms))
  {
    var le := ByScore(terms);
    forall x, y ensures le(x, y) || le(y, x) { Strings.StringLeTotal(x.path, y.path); }
    forall x, y, z | le(x, y) && le(y, z) ensures le(x, z) {
      if Score(x, terms) == Score(y, terms) == Score(z, terms) { Strings.StringLeTransitive(x.path, y.path, z.path); }
    }
  }

  /** The file with more of the tokens first, and of two with as many the one whose path comes first. */
  ghost predicate IsFoundBefore(a: File, b: File, terms: set<string>) {
    var inA := set t | t in terms && Strings.Contains(a.haystack, t);
    var inB := set t | t in terms && Strings.Contains(b.haystack, t);
    |inA| > |inB| || (|inA| == |inB| && exists i :: Strings.ComesBefore(a.path, b.path, i))
  }

  lemma FoundBeforeIff(a: File, b: File, terms: set<string>)
    ensures ByScore(terms)(a, b) <==> IsFoundBefore(a, b, terms)
  {
    Strings.StringLeIff(a.path, b.path);
  }

  /** Exactly the files that contain a token of the query, the most tokens first. */
  method Search(files: seq<File>, query: string) returns (r: seq<File>)
    ensures forall f <- files ::
      multiset(r)[f] == if exists t <- Tokens(query) :: Strings.Contains(f.haystack, t) then multiset(files)[f] else 0
    ensures forall f <- r :: f in files
    ensures forall i, j :: 0 <= i < j < |r| ==> IsFoundBefore(r[i], r[j], Tokens(query))
  {
    var terms := Tokens(query);
    if terms == {} { return []; }
    var scored: seq<File> := [];
    for i := 0 to |files|
      invariant forall f <- scored :: f in files[..i]
      invariant forall f :: multiset(scored)[f] == if Score(f, terms) > 0 then multiset(files[..i])[f] else 0
    {
      if Score(files[i], terms) > 0 {
        scored := scored + [files[i]];
      }
      assert files[..i + 1] == files[..i] + [files[i]];
    }
    assert files[..|files|] == files;
    ByScoreIsLinear(terms);
    SortSorts(scored, ByScore(terms));
    r := Sort(scored, ByScore(terms));
    forall f ensures f in r <==> f in scored { SameMembers(r, scored, f); }
    forall f: File ensures Score(f, terms) > 0 <==> exists t <- terms :: Strings.Contains(f.haystack, t) {
      var found := set t | t in terms && Strings.Contains(f.haystack, t);
      if t :| t in terms && Strings.Contains(f.haystack, t) { assert t in found; }
    }
    forall i, j | 0 <= i < j < |r| ensures IsFoundBefore(r[i], r[j], terms) {
      assert ByScore(terms)(r[i], r[j]);
      FoundBeforeIff(r[i], r[j], terms);
    }
  }
}
