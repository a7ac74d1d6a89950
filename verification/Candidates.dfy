/** The map of candidate repositories that discovery fills from several signals. */
module Candidates {
  import opened Wrappers
  import opened RepoRefs
  import opened Contributions
  import CodeHits
  import Sorting

  datatype Candidate = Candidate(ref: RepoRef, sources: seq<Source>, confidence: Confidence, score: real,
                                 evidence: seq<string>, paths: seq<string>)

  /** The paths not yet there are appended, in order. */
  function MergePaths(paths: seq<string>, more: seq<string>): (r: seq<string>)
    ensures paths <= r && forall p :: p in r <==> p in paths || p in more
    ensures Sorting.NoDuplicates(paths) ==> Sorting.NoDuplicates(r)
    decreases |more|
  {
    if more == [] then paths
    else if more[0] in paths then MergePaths(paths, more[1..])
    else MergePaths(paths + [more[0]], more[1..])
  }

  /** The contract of a candidate demands a non-negative score, but only when it is constructed. */
  predicate CanAdd(m: map<string, Candidate>, c: Contribution) {
    Key(c.ref) in m || c.score >= 0.0
  }

  function Merged(existing: Candidate, c: Contribution): Candidate {
    existing.(
      sources := if c.source in existing.sources then existing.sources else existing.sources + [c.source],
      score := existing.score + c.score,
      evidence := existing.evidence + c.evidence,
      paths := MergePaths(existing.paths, c.paths),
      confidence := if Rank(c.confidence) > Rank(existing.confidence) then c.confidence else existing.confidence)
  }

  function Added(m: map<string, Candidate>, c: Contribution): map<string, Candidate> {
    var key := Key(c.ref);
    m[key := if key in m then Merged(m[key], c)
             else Candidate(c.ref, [c.source], c.confidence, c.score, c.evidence, c.paths)]
  }

  /** A sequence of contributions; None when one of them raises. */
  function AddAll(m: map<string, Candidate>, adds: seq<Contribution>): Option<map<string, Candidate>> {
    if adds == [] then Some(m) else
      var before := AddAll(m, adds[..|adds| - 1]);
      if before.Some? && CanAdd(before.value, adds[|adds| - 1]) then Some(Added(before.value, adds[|adds| - 1]))
      else None
  }

  method Merge(candidate: Candidate, c: Contribution) returns (existing: Candidate)
    ensures existing == Merged(candidate, c)
  {
    existing := candidate;
    if c.source !in existing.sources {
      existing := existing.(sources := existing.sources + [c.source]);
    }
    existing := existing.(score := existing.score + c.score, evidence := existing.evidence + c.evidence);
    var paths := existing.paths;
    for i := 0 to |c.paths|
      invariant MergePaths(paths, c.paths[i..]) == MergePaths(existing.paths, c.paths)
    {
      if c.paths[i] !in paths {
        paths := paths + [c.paths[i]];
      }
    }
    existing := existing.(paths := paths);
    if Rank(c.confidence) > Rank(existing.confidence) {
      existing := existing.(confidence := c.confidence);
    }
  }

  class CandidateMap {
    var candidates: map<string, Candidate>
    /** Every contribution that was added, in order. */
    ghost var history: seq<Contribution>

    ghost predicate Valid()
      reads this
    {
      AddAll(map[], history) == Some(candidates)
    }

    constructor ()
      ensures Valid() && history == []
    {
      candidates, history := map[], [];
    }

    /** `_add_candidate`; false when the candidate's contract rejects a negative score. */
    method AddCandidate(c: Contribution) returns (ok: bool)
      requires Valid()
      modifies this
      ensures Valid()
      ensures ok <==> CanAdd(old(candidates), c)
      ensures candidates == if ok then Added(old(candidates), c) else old(candidates)
      ensures history == if ok then old(history) + [c] else old(history)
    {
      var key := Key(c.ref);
      if key !in candidates {
        if c.score < 0.0 { return false; }
        candidates := candidates[key := Candidate(c.ref, [c.source], c.confidence, c.score, c.evidence, c.paths)];
      } else {
        var merged := Merge(candidates[key], c);
        candidates := candidates[key := merged];
      }
      AddOneMore(map[], history, c);
      history := history + [c];
      return true;
    }

    /** `_record_code_hits`: one contribution for each repository with a match. */
    method RecordCodeHits(matches: seq<CodeHits.CodeMatch>, specific: string -> bool)
      requires Valid()
      modifies this
      ensures Valid() && history == old(history) + CodeHits.HitsOf(matches, specific)
    {
      var byRepo, keys := CodeHits.GroupByRepo(matches);
      CodeHits.KeysHaveRefs(matches);
      CodeHits.KeysInIff(matches);
      ghost var start, hits := history, [];
      for i := 0 to |keys|
        invariant hits == CodeHits.HitsFor(keys[..i], matches, specific) && Valid() && history == start + hits
      {
        var c := CodeHits.Hit(CodeHits.FirstRef(keys[i], matches).value, byRepo[keys[i]], specific);
        CodeHits.HitOfIsHit(keys[i], matches, specific);
        CodeHits.HitsForOneMore(keys, i, matches, specific);
        var ok := AddCandidate(c);
        Associates(start, hits, [c]);
        hits := hits + [c];
      }
      assert keys[..|keys|] == keys;
    }
  }

  lemma AddOneMore(m: map<string, Candidate>, adds: seq<Contribution>, c: Contribution)
    ensures
      AddAll(m, adds + [c]) ==
        if AddAll(m, adds).Some? && CanAdd(AddAll(m, adds).value, c) then Some(Added(AddAll(m, adds).value, c))
        else None
  {
    assert (adds + [c])[..|adds|] == adds;
  }

  // ---------- The order-free meaning of the map ----------

  function Total(key: string, adds: seq<Contribution>): real {
    if adds == [] then 0.0 else
      var last := adds[|adds| - 1];
      Total(key, adds[..|adds| - 1]) + if Key(last.ref) == key then last.score else 0.0
  }

  /** The evidence for a repository, in order. */
  function EvidenceOf(key: string, adds: seq<Contribution>): seq<string> {
    if adds == [] then [] else
      var last := adds[|adds| - 1];
      EvidenceOf(key, adds[..|adds| - 1]) + if Key(last.ref) == key then last.evidence else []
  }

  ghost predicate HasPath(key: string, path: string, adds: seq<Contribution>) {
    exists a <- adds :: Key(a.ref) == key && path in a.paths
  }

  ghost predicate Cites(key: string, s: Source, adds: seq<Contribution>) {
    exists a <- adds :: Key(a.ref) == key && a.source == s
  }

  ghost predicate IsBest(c: Confidence, key: string, adds: seq<Contribution>) {
    && (exists a <- adds :: Key(a.ref) == key && a.confidence == c)
    && forall a <- adds :: Key(a.ref) == key ==> Rank(a.confidence) <= Rank(c)
  }

  /** A candidate sums up the contributions with its key: the score is their sum, the confidence
      their maximum, the sources their union without repeats; evidence is kept in order, and so is
      every path. */
  ghost predicate SumsUp(c: Candidate, key: string, adds: seq<Contribution>) {
    && Key(c.ref) == key
    && c.score == Total(key, adds)
    && IsBest(c.confidence, key, adds)
    && c.evidence == EvidenceOf(key, adds)
    && (forall p :: p in c.paths <==> HasPath(key, p, adds))
    && Sorting.NoDuplicates(c.sources) && forall s :: s in c.sources <==> Cites(key, s, adds)
  }

  ghost predicate Summarises(m: map<string, Candidate>, adds: seq<Contribution>) {
    && (forall k :: k in m <==> Mentions(k, adds))
    && forall k <- m :: SumsUp(m[k], k, adds)
  }

  /** The map sums up, for every repository, all contributions to it. */
  lemma {:induction false} AddAllSummarises(adds: seq<Contribution>, m: map<string, Candidate>)
    requires AddAll(map[], adds) == Some(m)
    ensures Summarises(m, adds)
  {
    if adds != [] {
      var init, last := adds[..|adds| - 1], adds[|adds| - 1];
      var before := AddAll(map[], init).value;
      assert m == Added(before, last);
      AddAllSummarises(init, before);
      SummaryStep(before, init, last, m, adds);
    } else {
      NothingToSummarise();
    }
  }

  lemma SummaryStep(before: map<string, Candidate>, init: seq<Contribution>, last: Contribution,
                    m: map<string, Candidate>, adds: seq<Contribution>)
    requires Summarises(before, init) && m == Added(before, last)
    requires adds != [] && init == adds[..|adds| - 1] && last == adds[|adds| - 1]
    ensures Summarises(m, adds)
  {
    SummaryOneMore(before, init, last);
    assert adds == init + [last];
  }

  lemma NothingToSummarise()
    ensures Summarises(map[], [])
  {
  }

  lemma SummaryOneMore(m: map<string, Candidate>, init: seq<Contribution>, last: Contribution)
    requires Summarises(m, init)
    ensures Summarises(Added(m, last), init + [last])
  {
    var adds, m' := init + [last], Added(m, last);
    forall k ensures k in m' <==> Mentions(k, adds) {
      assert Mentions(k, adds) <==> Mentions(k, init) || Key(last.ref) == k;
    }
    forall k | k in m' ensures SumsUp(m'[k], k, adds) {
      CandidateOneMore(m, k, init, last);
    }
  }

  lemma CandidateOneMore(m: map<string, Candidate>, k: string, init: seq<Contribution>, last: Contribution)
    requires Summarises(m, init) && k in Added(m, last)
    ensures SumsUp(Added(m, last)[k], k, init + [last])
  {
    if k != Key(last.ref) {
      NothingNew(k, init, last);
    } else if k in m {
      MergedSumsUp(m[k], k, init, last);
    } else {
      FirstSumsUp(Added(m, last)[k], k, init, last);
    }
  }

  lemma NothingNew(k: string, init: seq<Contribution>, last: Contribution)
    requires k != Key(last.ref)
    ensures forall c :: SumsUp(c, k, init) ==> SumsUp(c, k, init + [last])
  {
    var adds := init + [last];
    assert adds[..|adds| - 1] == init;
    assert forall a :: a in adds && Key(a.ref) == k <==> a in init && Key(a.ref) == k;
  }

  lemma FirstSumsUp(c: Candidate, k: string, init: seq<Contribution>, last: Contribution)
    requires k == Key(last.ref) && !Mentions(k, init)
    requires c == Candidate(last.ref, [last.source], last.confidence, last.score, last.evidence, last.paths)
    ensures SumsUp(c, k, init + [last])
  {
    var adds := init + [last];
    assert adds[..|adds| - 1] == init && last in adds;
    TotalOfUnmentioned(k, init);
  }

  lemma {:induction false} TotalOfUnmentioned(k: string, adds: seq<Contribution>)
    requires !Mentions(k, adds)
    ensures Total(k, adds) == 0.0 && EvidenceOf(k, adds) == []
  {
    if adds != [] {
      assert adds[|adds| - 1] in adds;
      TotalOfUnmentioned(k, adds[..|adds| - 1]);
    }
  }

  lemma MergedSumsUp(c: Candidate, k: string, init: seq<Contribution>, last: Contribution)
    requires k == Key(last.ref) && SumsUp(c, k, init)
    ensures SumsUp(Merged(c, last), k, init + [last])
  {
    var adds, c' := init + [last], Merged(c, last);
    assert adds[..|adds| - 1] == init && last in adds;
    assert forall a :: a in adds <==> a in init || a == last;
    forall s ensures s in c'.sources <==> Cites(k, s, adds) {
      assert Cites(k, s, adds) <==> Cites(k, s, init) || last.source == s;
    }
    forall p ensures p in c'.paths <==> HasPath(k, p, adds) {
      assert HasPath(k, p, adds) <==> HasPath(k, p, init) || p in last.paths;
    }
    var best :| best in init && Key(best.ref) == k && best.confidence == c.confidence;
    assert best in adds;
  }

  // ---------- Order ----------

  lemma {:induction false} TotalConcat(key: string, a: seq<Contribution>, b: seq<Contribution>)
    ensures Total(key, a + b) == Total(key, a) + Total(key, b)
  {
    if b == [] {
      assert a + b == a;
    } else {
      TotalConcat(key, a, b[..|b| - 1]);
      assert (a + b)[..|a + b| - 1] == a + b[..|b| - 1];
    }
  }

  lemma {:induction false} TotalOfRearrangement(key: string, a: seq<Contribution>, b: seq<Contribution>)
    requires multiset(a) == multiset(b)
    ensures Total(key, a) == Total(key, b)
  {
    if a != [] {
      var init, x := a[..|a| - 1], a[|a| - 1];
      assert a == init + [x];
      Sorting.SameMembers(a, b, x);
      var i :| 0 <= i < |b| && b[i] == x;
      assert multiset(init) == multiset(a) - multiset{x};
      TotalWithout(key, b, i);
      TotalOfRearrangement(key, init, b[..i] + b[i + 1..]);
    } else {
      assert |b| == |multiset(b)| == 0;
    }
  }

  lemma TotalWithout(key: string, b: seq<Contribution>, i: nat)
    requires i < |b|
    ensures
      var rest := b[..i] + b[i + 1..];
      && multiset(rest) == multiset(b) - multiset{b[i]}
      && Total(key, b) == Total(key, rest) + if Key(b[i].ref) == key then b[i].score else 0.0
  {
    var before, x, after := b[..i], b[i], b[i + 1..];
    assert b == before + [x] + after;
    TotalConcat(key, before, after);
    TotalConcat(key, before + [x], after);
    TotalConcat(key, before, [x]);
    assert [x][..0] == [];
  }

  /** When two orders of the same contributions succeed, they find the same repositories with the
      same score, confidence and sources. */
  lemma {:induction false} OrderIsInvisible(a: seq<Contribution>, b: seq<Contribution>)
    requires multiset(a) == multiset(b) && AddAll(map[], a).Some? && AddAll(map[], b).Some?
    ensures
      var ma, mb := AddAll(map[], a).value, AddAll(map[], b).value;
      && ma.Keys == mb.Keys
      && (forall k <- ma :: ma[k].score == mb[k].score && ma[k].confidence == mb[k].confidence)
      && (forall k <- ma :: forall s :: s in ma[k].sources <==> s in mb[k].sources)
      && (forall k <- ma :: forall p :: p in ma[k].paths <==> p in mb[k].paths)
  {
    var ma, mb := AddAll(map[], a).value, AddAll(map[], b).value;
    AddAllSummarises(a, ma);
    AddAllSummarises(b, mb);
    forall c ensures c in a <==> c in b { Sorting.SameMembers(a, b, c); }
    forall k ensures k in ma <==> k in mb {
      assert Mentions(k, a) <==> Mentions(k, b);
    }
    forall k | k in ma ensures ma[k].score == mb[k].score && ma[k].confidence == mb[k].confidence {
      assert SumsUp(ma[k], k, a) && SumsUp(mb[k], k, b);
      TotalOfRearrangement(k, a, b);
    }
    forall k, s | k in ma ensures s in ma[k].sources <==> s in mb[k].sources {
      assert SumsUp(ma[k], k, a) && SumsUp(mb[k], k, b);
      assert Cites(k, s, a) <==> Cites(k, s, b);
    }
    forall k, p | k in ma ensures p in ma[k].paths <==> p in mb[k].paths {
      assert SumsUp(ma[k], k, a) && SumsUp(mb[k], k, b);
      assert HasPath(k, p, a) <==> HasPath(k, p, b);
    }
  }

  // ---------- When adding raises ----------

  ghost predicate IsFirst(i: nat, adds: seq<Contribution>)
    requires i < |adds|
  {
    forall j :: 0 <= j < i ==> Key(adds[j].ref) != Key(adds[i].ref)
  }

  /** The first contribution for every repository is non-negative. */
  ghost predicate FirstsAreNonNegative(adds: seq<Contribution>) {
    forall i :: 0 <= i < |adds| && IsFirst(i, adds) ==> adds[i].score >= 0.0
  }

  lemma FirstsOfOneMore(init: seq<Contribution>, last: Contribution)
    ensures FirstsAreNonNegative(init + [last]) <==>
      FirstsAreNonNegative(init) && (Mentions(Key(last.ref), init) || last.score >= 0.0)
  {
    var adds, n := init + [last], |init|;
    forall i | 0 <= i < n ensures IsFirst(i, adds) <==> IsFirst(i, init) {
      assert forall j :: 0 <= j <= i ==> adds[j] == init[j];
    }
    if IsFirst(n, adds) {
      forall a | a in init ensures Key(a.ref) != Key(last.ref) {
        var j :| 0 <= j < n && init[j] == a;
        assert adds[j] == a;
      }
    } else {
      var j :| 0 <= j < n && Key(adds[j].ref) == Key(last.ref);
      assert init[j] in init;
    }
  }

  /** It raises exactly when the first contribution for some repository is negative. */
  lemma {:induction false} SucceedsIffFirstsAreNonNegative(adds: seq<Contribution>)
    ensures AddAll(map[], adds).Some? <==> FirstsAreNonNegative(adds)
  {
    if adds != [] {
      var init, last := adds[..|adds| - 1], adds[|adds| - 1];
      assert adds == init + [last];
      SucceedsIffFirstsAreNonNegative(init);
      FirstsOfOneMore(init, last);
      if AddAll(map[], init).Some? {
        AddAllSummarises(init, AddAll(map[], init).value);
      }
    }
  }

  /** The same contributions with the `i`-th one first. */
  lemma PutFirst(adds: seq<Contribution>, i: nat) returns (p: seq<Contribution>)
    requires i < |adds|
    ensures multiset(p) == multiset(adds) && p != [] && p[0] == adds[i]
  {
    p := [adds[i]] + (adds[..i] + adds[i + 1..]);
    assert adds == adds[..i] + [adds[i]] + adds[i + 1..];
  }

  lemma NegativeFirstRaises(p: seq<Contribution>)
    requires p != [] && p[0].score < 0.0
    ensures AddAll(map[], p) == None
  {
    SucceedsIffFirstsAreNonNegative(p);
    assert IsFirst(0, p);
  }

  lemma NonNegativeSucceeds(adds: seq<Contribution>, p: seq<Contribution>)
    requires multiset(p) == multiset(adds) && forall a <- adds :: a.score >= 0.0
    ensures AddAll(map[], p).Some?
  {
    forall c ensures c in p <==> c in adds { Sorting.SameMembers(p, adds, c); }
    SucceedsIffFirstsAreNonNegative(p);
  }

  /** Only non-negative contributions are safe in every order. */
  lemma EveryOrderSucceedsIff(adds: seq<Contribution>)
    ensures (forall p :: multiset(p) == multiset(adds) ==> AddAll(map[], p).Some?) <==>
      forall a <- adds :: a.score >= 0.0
  {
    if forall a <- adds :: a.score >= 0.0 {
      forall p | multiset(p) == multiset(adds) ensures AddAll(map[], p).Some? { NonNegativeSucceeds(adds, p); }
    } else {
      var i :| 0 <= i < |adds| && adds[i].score < 0.0;
      var p := PutFirst(adds, i);
      NegativeFirstRaises(p);
    }
  }

  /** `_score_metadata`, rounded values being exact here. */
  function MetadataScore(overlap: nat, languageMatches: bool, recent: bool, archived: bool): real {
    overlap as real + (if languageMatches then 1.5 else 0.0) + (if recent then 1.0 else 0.0)
    + (if archived then -2.0 else 0.0)
  }
}
