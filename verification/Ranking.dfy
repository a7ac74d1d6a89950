/** Ranking the candidates, letting an untrusted disambiguator reorder them, and selecting. */
module Ranking {
  import opened Wrappers
  import opened Counting
  import opened Sorting
  import Strings
  import opened RepoRefs
  import Contributions
  import opened CodeHits
  import opened Candidates

  /** Sort key `(-score, key)`. */
  function Precedes(): (Candidate, Candidate) -> bool {
    (a: Candidate, b: Candidate) =>
      a.score > b.score || (a.score == b.score && Strings.StringLe(Key(a.ref), Key(b.ref)))
  }

  lemma PrecedesIsLinear()
    ensures Linear(Precedes())
  {
    var le := Precedes();
    forall x, y ensures le(x, y) || le(y, x) { Strings.StringLeTotal(Key(x.ref), Key(y.ref)); }
    forall x, y, z | le(x, y) && le(y, z) ensures le(x, z) {
      if x.score == y.score == z.score { Strings.StringLeTransitive(Key(x.ref), Key(y.ref), Key(z.ref)); }
    }
  }

  /** The better score first, and of two alike the one whose key comes first. */
  ghost predicate GoesBefore(a: Candidate, b: Candidate) {
    a.score > b.score || (a.score == b.score && exists i :: Strings.ComesBefore(Key(a.ref), Key(b.ref), i))
  }

  ghost predicate InRankOrder(cs: seq<Candidate>) {
    forall i, j :: 0 <= i < j < |cs| ==> GoesBefore(cs[i], cs[j])
  }

  lemma RankOrderIff(cs: seq<Candidate>)
    ensures InRankOrder(cs) <==> Sorted(cs, Precedes())
  {
    forall a: Candidate, b: Candidate ensures GoesBefore(a, b) <==> Precedes()(a, b) {
      Strings.StringLeIff(Key(a.ref), Key(b.ref));
    }
  }

  ghost predicate DistinctKeys(cs: seq<Candidate>) {
    forall i, j :: 0 <= i < j < |cs| ==> Key(cs[i].ref) != Key(cs[j].ref)
  }

  /** Every candidate of the map, once, best first. */
  ghost predicate IsRanking(m: map<string, Candidate>, ranked: seq<Candidate>) {
    && (forall c :: c in ranked <==> Key(c.ref) in m && m[Key(c.ref)] == c)
    && DistinctKeys(ranked) && InRankOrder(ranked)
  }

  method RankCandidates(m: map<string, Candidate>) returns (ranked: seq<Candidate>)
    requires forall k <- m :: Key(m[k].ref) == k
    ensures IsRanking(m, ranked)
  {
    var values: seq<Candidate>, rest := [], m.Keys;
    while rest != {}
      invariant rest <= m.Keys && NoDuplicates(values)
      invariant forall c :: c in values <==> Key(c.ref) in m.Keys - rest && m[Key(c.ref)] == c
      decreases rest
    {
      var k :| k in rest;
      rest := rest - {k};
      values := values + [m[k]];
    }
    var le := Precedes();
    PrecedesIsLinear();
    SortSorts(values, le);
    ranked := Sort(values, le);
    forall c ensures c in ranked <==> c in values { SameMembers(ranked, values, c); }
    RearrangementKeepsNoDuplicates(values, ranked);
    forall i, j | 0 <= i < j < |ranked| ensures Key(ranked[i].ref) != Key(ranked[j].ref) {
      assert ranked[i] in values && ranked[j] in values && ranked[i] != ranked[j];
    }
    RankOrderIff(ranked);
  }

  /** The ranking does not depend on the order of the map. */
  lemma RankingIsUnique(m: map<string, Candidate>, a: seq<Candidate>, b: seq<Candidate>)
    requires IsRanking(m, a) && IsRanking(m, b)
    ensures a == b
  {
    assert forall c :: c in a <==> c in b;
    RankOrderIff(a);
    RankOrderIff(b);
    SameOrder(a, b);
  }

  lemma {:induction false} SameOrder(a: seq<Candidate>, b: seq<Candidate>)
    requires DistinctKeys(a) && DistinctKeys(b) && Sorted(a, Precedes()) && Sorted(b, Precedes())
    requires forall c :: c in a <==> c in b
    ensures a == b
  {
    if b != [] { assert b[0] in b; }
    if a != [] {
      assert a[0] in b && b[0] in a;
      var le := Precedes();
      assert le(a[0], b[0]) && le(b[0], a[0]) by {
        var i :| 0 <= i < |b| && b[i] == a[0];
        var j :| 0 <= j < |a| && a[j] == b[0];
        Strings.StringLeTotal(Key(a[0].ref), Key(a[0].ref));
      }
      Strings.StringLeTotal(Key(a[0].ref), Key(b[0].ref));
      TailMembers(a);
      TailMembers(b);
      assert a[0] == b[0] by {
        var i :| 0 <= i < |b| && b[i] == a[0];
      }
      SameOrder(a[1..], b[1..]);
      assert a == [a[0]] + a[1..] && b == [b[0]] + b[1..];
    }
  }

  lemma TailMembers(a: seq<Candidate>)
    requires a != [] && DistinctKeys(a) && Sorted(a, Precedes())
    ensures DistinctKeys(a[1..]) && Sorted(a[1..], Precedes())
    ensures forall c :: c in a[1..] <==> c in a && c != a[0]
  {
    assert a == [a[0]] + a[1..];
    assert forall i :: 0 <= i < |a| - 1 ==> a[1..][i] == a[i + 1];
  }

  // ---------- Disambiguation ----------

  /** Any output a disambiguator can give. */
  datatype Decision = Decision(ordered: seq<RepoRef>, dropped: seq<RepoRef>)

  function KeysIn(refs: seq<RepoRef>): set<string> {
    set r | r in refs :: Key(r)
  }

  function Positive(cs: seq<Candidate>): (r: seq<Candidate>)
    ensures forall c {:trigger c in r} :: c in r <==> c in cs && c.score > 0.0
  {
    if cs == [] then [] else if cs[0].score > 0.0 then [cs[0]] + Positive(cs[1..]) else Positive(cs[1..])
  }

  function NonPositive(cs: seq<Candidate>): (r: seq<Candidate>)
    ensures forall c {:trigger c in r} :: c in r <==> c in cs && c.score <= 0.0
  {
    if cs == [] then [] else if cs[0].score <= 0.0 then [cs[0]] + NonPositive(cs[1..]) else NonPositive(cs[1..])
  }

  function Find(cs: seq<Candidate>, key: string): (r: Option<Candidate>)
    ensures r.Some? ==> r.value in cs && Key(r.value.ref) == key
    ensures r.None? ==> forall c <- cs :: Key(c.ref) != key
  {
    if cs == [] then None else if Key(cs[0].ref) == key then Some(cs[0]) else Find(cs[1..], key)
  }

  /** The known candidates the disambiguator lists, in its order. */
  function InOrder(cs: seq<Candidate>, refs: seq<RepoRef>): (r: seq<Candidate>)
    ensures forall c <- r :: c in cs && Key(c.ref) in KeysIn(refs)
  {
    if refs == [] then [] else
      assert forall k :: k in KeysIn(refs) <==> k == Key(refs[0]) || k in KeysIn(refs[1..]);
      var found := Find(cs, Key(refs[0]));
      if found.Some? then [found.value] + InOrder(cs, refs[1..]) else InOrder(cs, refs[1..])
  }

  function Unlisted(cs: seq<Candidate>, skip: set<string>): (r: seq<Candidate>)
    ensures forall c {:trigger c in r} :: c in r <==> c in cs && Key(c.ref) !in skip
  {
    if cs == [] then []
    else if Key(cs[0].ref) !in skip then [cs[0]] + Unlisted(cs[1..], skip)
    else Unlisted(cs[1..], skip)
  }

  function CandidateKeys(cs: seq<Candidate>): set<string> {
    set c | c in cs :: Key(c.ref)
  }

  predicate Disambiguates(ranked: seq<Candidate>, decision: Option<Decision>, maxSelected: nat) {
    decision.Some? && |Positive(ranked)| > maxSelected
  }

  /** The listed candidates, then the others that were not dropped. */
  function Reordered(known: seq<Candidate>, decision: Decision): seq<Candidate> {
    var ordered := InOrder(known, decision.ordered);
    ordered + Unlisted(known, CandidateKeys(ordered) + KeysIn(decision.dropped))
  }

  /** The final ranking: `decision` is what the disambiguator, if there is one, would answer. */
  function FinalRanking(ranked: seq<Candidate>, decision: Option<Decision>, maxSelected: nat): seq<Candidate> {
    if !Disambiguates(ranked, decision, maxSelected) then ranked else
      var again := Reordered(Positive(ranked), decision.value);
      again + NonPositive(again)
  }

  function RefsOf(cs: seq<Candidate>): (r: seq<RepoRef>)
    ensures |r| == |cs| && forall i :: 0 <= i < |cs| ==> r[i] == cs[i].ref
  {
    if cs == [] then [] else [cs[0].ref] + RefsOf(cs[1..])
  }

  function Selected(final: seq<Candidate>, maxSelected: nat): seq<RepoRef> {
    var top := RefsOf(Positive(final[..Min(maxSelected, |final|)]));
    if top == [] && final != [] then [final[0].ref] else top
  }

  // ---------- What a disambiguator cannot do ----------

  lemma {:induction false} ListedAreKept(known: seq<Candidate>, refs: seq<RepoRef>, c: Candidate)
    requires DistinctKeys(known) && c in known && Key(c.ref) in KeysIn(refs)
    ensures c in InOrder(known, refs)
  {
    if Key(refs[0]) == Key(c.ref) {
      assert Find(known, Key(refs[0])).value == c;
    } else {
      ListedAreKept(known, refs[1..], c);
    }
  }

  lemma ReorderedKeeps(known: seq<Candidate>, decision: Decision, c: Candidate)
    requires DistinctKeys(known)
    ensures c in Reordered(known, decision) <==>
            c in known && (Key(c.ref) in KeysIn(decision.ordered) || Key(c.ref) !in KeysIn(decision.dropped))
  {
    var ordered := InOrder(known, decision.ordered);
    var skip := CandidateKeys(ordered) + KeysIn(decision.dropped);
    var rest := Unlisted(known, skip);
    assert c in Reordered(known, decision) <==> c in ordered || c in rest;
    if c in known && Key(c.ref) in KeysIn(decision.ordered) {
      ListedAreKept(known, decision.ordered, c);
    }
  }

  lemma {:induction false} NothingNonPositive(cs: seq<Candidate>)
    requires forall c <- cs :: c.score > 0.0
    ensures NonPositive(cs) == []
  {
    if cs != [] { NothingNonPositive(cs[1..]); }
  }

  /** Low-confidence candidates never return: the list they would come from has none. */
  lemma {:induction false} FinalIsReordered(ranked: seq<Candidate>, decision: Option<Decision>, maxSelected: nat)
    requires Disambiguates(ranked, decision, maxSelected)
    ensures FinalRanking(ranked, decision, maxSelected) == Reordered(Positive(ranked), decision.value)
  {
    var again := Reordered(Positive(ranked), decision.value);
    NothingNonPositive(again);
  }

  /** After disambiguation exactly the positive candidates remain that it listed or did not drop;
      nothing is added and no low-confidence candidate comes back. */
  lemma DisambiguationKeepsExactly(ranked: seq<Candidate>, decision: Option<Decision>, maxSelected: nat, c: Candidate)
    requires Disambiguates(ranked, decision, maxSelected) && DistinctKeys(ranked)
    ensures c in FinalRanking(ranked, decision, maxSelected) <==>
            && c in ranked && c.score > 0.0
            && (Key(c.ref) in KeysIn(decision.value.ordered) || Key(c.ref) !in KeysIn(decision.value.dropped))
  {
    FinalIsReordered(ranked, decision, maxSelected);
    PositiveStaysDistinct(ranked);
    ReorderedKeeps(Positive(ranked), decision.value, c);
  }

  function KeysOf(cs: seq<Candidate>): seq<string> {
    if cs == [] then [] else [Key(cs[0].ref)] + KeysOf(cs[1..])
  }

  /** The keys the disambiguator lists that belong to a candidate, in its order. */
  function ListedKeys(cs: seq<Candidate>, refs: seq<RepoRef>): seq<string> {
    if refs == [] then []
    else if exists c <- cs :: Key(c.ref) == Key(refs[0]) then [Key(refs[0])] + ListedKeys(cs, refs[1..])
    else ListedKeys(cs, refs[1..])
  }

  lemma {:induction false} InOrderFollowsTheList(cs: seq<Candidate>, refs: seq<RepoRef>)
    ensures KeysOf(InOrder(cs, refs)) == ListedKeys(cs, refs)
  {
    if refs != [] {
      InOrderFollowsTheList(cs, refs[1..]);
      var found := Find(cs, Key(refs[0]));
      if found.Some? {
        assert ([found.value] + InOrder(cs, refs[1..]))[1..] == InOrder(cs, refs[1..]);
      }
    }
  }

  lemma SortedCons(x: Candidate, s: seq<Candidate>, le: (Candidate, Candidate) -> bool)
    requires Sorted(s, le) && forall c <- s :: le(x, c)
    ensures Sorted([x] + s, le)
  {
  }

  lemma SortedTail(cs: seq<Candidate>, le: (Candidate, Candidate) -> bool)
    requires Sorted(cs, le) && cs != []
    ensures Sorted(cs[1..], le) && forall c <- cs[1..] :: le(cs[0], c)
  {
    var tail := cs[1..];
    assert forall i :: 0 <= i < |tail| ==> tail[i] == cs[i + 1];
    forall c | c in tail ensures le(cs[0], c) {
      var i :| 0 <= i < |tail| && tail[i] == c;
      assert cs[i + 1] == c;
    }
  }

  lemma {:induction false} UnlistedStaysSorted(cs: seq<Candidate>, skip: set<string>,
                                               le: (Candidate, Candidate) -> bool)
    requires Sorted(cs, le)
    ensures Sorted(Unlisted(cs, skip), le)
  {
    if cs != [] {
      SortedTail(cs, le);
      UnlistedStaysSorted(cs[1..], skip, le);
      SortedCons(cs[0], Unlisted(cs[1..], skip), le);
    }
  }

  lemma {:induction false} PositiveStaysSorted(cs: seq<Candidate>, le: (Candidate, Candidate) -> bool)
    requires Sorted(cs, le)
    ensures Sorted(Positive(cs), le)
  {
    if cs != [] {
      SortedTail(cs, le);
      PositiveStaysSorted(cs[1..], le);
      SortedCons(cs[0], Positive(cs[1..]), le);
    }
  }

  /** First the listed candidates, in the order listed; then the others, none of them listed, best first. */
  ghost predicate ListedFirst(ranked: seq<Candidate>, decision: Decision, final: seq<Candidate>) {
    exists k :: 0 <= k <= |final|
      && KeysOf(final[..k]) == ListedKeys(Positive(ranked), decision.ordered)
      && InRankOrder(final[k..]) && forall c <- final[k..] :: Key(c.ref) !in KeysIn(decision.ordered)
  }

  lemma DisambiguationOrders(ranked: seq<Candidate>, decision: Option<Decision>, maxSelected: nat)
    requires Disambiguates(ranked, decision, maxSelected) && DistinctKeys(ranked) && InRankOrder(ranked)
    ensures ListedFirst(ranked, decision.value, FinalRanking(ranked, decision, maxSelected))
  {
    var known, d := Positive(ranked), decision.value;
    var ordered := InOrder(known, d.ordered);
    var skip := CandidateKeys(ordered) + KeysIn(d.dropped);
    var rest := Unlisted(known, skip);
    FinalIsReordered(ranked, decision, maxSelected);
    var final := FinalRanking(ranked, decision, maxSelected);
    assert final[..|ordered|] == ordered && final[|ordered|..] == rest;
    InOrderFollowsTheList(known, d.ordered);
    RankOrderIff(ranked);
    RankOrderIff(rest);
    PositiveStaysSorted(ranked, Precedes());
    UnlistedStaysSorted(known, skip, Precedes());
    PositiveStaysDistinct(ranked);
    forall c | c in rest ensures Key(c.ref) !in KeysIn(d.ordered) {
      if Key(c.ref) in KeysIn(d.ordered) { ListedAreKept(known, d.ordered, c); }
    }
  }

  lemma SelectedComeFrom(final: seq<Candidate>, maxSelected: nat, ref: RepoRef)
    requires ref in Selected(final, maxSelected)
    ensures exists c <- final :: c.ref == ref
  {
    var head := final[..Min(maxSelected, |final|)];
    var top := RefsOf(Positive(head));
    if top != [] {
      var i :| 0 <= i < |top| && top[i] == ref;
      assert Positive(head)[i] in Positive(head) && Positive(head)[i] in final;
    } else {
      assert final[0] in final;
    }
  }

  /** Whatever the disambiguator answers, only discovered repositories are selected, and none it
      dropped without listing. */
  lemma SelectionIsBounded(m: map<string, Candidate>, ranked: seq<Candidate>, decision: Option<Decision>,
                           maxSelected: nat, ref: RepoRef)
    requires IsRanking(m, ranked)
    requires ref in Selected(FinalRanking(ranked, decision, maxSelected), maxSelected)
    ensures Key(ref) in m && m[Key(ref)].ref == ref
    ensures Disambiguates(ranked, decision, maxSelected) ==>
      && m[Key(ref)].score > 0.0
      && (Key(ref) in KeysIn(decision.value.ordered) || Key(ref) !in KeysIn(decision.value.dropped))
  {
    var final := FinalRanking(ranked, decision, maxSelected);
    SelectedComeFrom(final, maxSelected, ref);
    var c :| c in final && c.ref == ref;
    if Disambiguates(ranked, decision, maxSelected) {
      DisambiguationKeepsExactly(ranked, decision, maxSelected, c);
    }
    assert c in ranked;
  }

  lemma {:induction false} PositiveIsShorter(cs: seq<Candidate>)
    ensures |Positive(cs)| <= |cs|
  {
    if cs != [] { PositiveIsShorter(cs[1..]); }
  }

  lemma SelectsFew(final: seq<Candidate>, maxSelected: nat)
    ensures |Selected(final, maxSelected)| <= if maxSelected > 1 then maxSelected else 1
    ensures Selected(final, maxSelected) == [] <==> final == []
  {
    PositiveIsShorter(final[..Min(maxSelected, |final|)]);
  }

  lemma {:induction false} NothingPositive(cs: seq<Candidate>)
    requires forall c <- cs :: c.score <= 0.0
    ensures Positive(cs) == []
  {
    if cs != [] { NothingPositive(cs[1..]); }
  }

  lemma {:induction false} AllPositive(cs: seq<Candidate>)
    requires forall c <- cs :: c.score > 0.0
    ensures Positive(cs) == cs
  {
    if cs != [] { AllPositive(cs[1..]); }
  }

  lemma {:induction false} PositiveOfSplit(a: seq<Candidate>, b: seq<Candidate>)
    ensures Positive(a + b) == Positive(a) + Positive(b)
  {
    if a == [] {
      assert a + b == b;
    } else {
      assert (a + b)[1..] == a[1..] + b;
      PositiveOfSplit(a[1..], b);
    }
  }

  ghost predicate BestFirst(cs: seq<Candidate>) {
    forall i, j :: 0 <= i < j < |cs| ==> cs[i].score >= cs[j].score
  }

  lemma RankedBestFirst(ranked: seq<Candidate>)
    requires InRankOrder(ranked)
    ensures BestFirst(ranked)
  {
    forall i, j | 0 <= i < j < |ranked| ensures ranked[i].score >= ranked[j].score {
      assert GoesBefore(ranked[i], ranked[j]);
    }
  }

  lemma UpToAPositive(ranked: seq<Candidate>, n: nat)
    requires BestFirst(ranked) && 0 < n <= |ranked| && ranked[n - 1].score > 0.0
    ensures Positive(ranked[..n]) == ranked[..n]
  {
    var head := ranked[..n];
    forall c | c in head ensures c.score > 0.0 {
      var i :| 0 <= i < n && head[i] == c;
      assert i < n - 1 ==> ranked[i].score >= ranked[n - 1].score;
    }
    AllPositive(head);
  }

  lemma FromANonPositive(ranked: seq<Candidate>, n: nat)
    requires BestFirst(ranked) && 0 < n <= |ranked| && ranked[n - 1].score <= 0.0
    ensures Positive(ranked[n..]) == [] && |Positive(ranked[..n])| < n
  {
    var head, tail := ranked[..n], ranked[n..];
    forall c | c in tail ensures c.score <= 0.0 {
      var i :| 0 <= i < |tail| && tail[i] == c;
      assert ranked[n + i] == c && ranked[n - 1].score >= ranked[n + i].score;
    }
    NothingPositive(tail);
    PositiveIsShorter(head);
    assert head[n - 1] in head && head[n - 1] !in Positive(head);
    if |Positive(head)| == n { PositiveKeepsAll(head, head[n - 1]); }
  }

  /** The best positive candidates are those among the first `n`. */
  lemma {:induction false} PositivesComeFirst(ranked: seq<Candidate>, n: nat)
    requires BestFirst(ranked) && n <= |ranked|
    ensures Positive(ranked[..n]) == Positive(ranked)[..Min(n, |Positive(ranked)|)]
    ensures n <= |Positive(ranked)| ==> Positive(ranked)[..n] == ranked[..n]
  {
    assert ranked == ranked[..n] + ranked[n..];
    PositiveOfSplit(ranked[..n], ranked[n..]);
    if n > 0 {
      if ranked[n - 1].score > 0.0 { UpToAPositive(ranked, n); } else { FromANonPositive(ranked, n); }
    }
  }

  lemma {:induction false} PositiveKeepsAll(cs: seq<Candidate>, c: Candidate)
    requires |Positive(cs)| == |cs| && c in cs
    ensures c in Positive(cs)
  {
    PositiveIsShorter(cs[1..]);
    if c != cs[0] { PositiveKeepsAll(cs[1..], c); }
  }

  /** Exactly the best positive candidates, or the single best one when none is positive. */
  ghost predicate SelectsBest(ranked: seq<Candidate>, maxSelected: nat, selected: seq<RepoRef>) {
    var positive := Positive(ranked);
    && positive <= ranked
    && (positive != [] ==> selected == RefsOf(positive[..Min(maxSelected, |positive|)]))
    && (positive == [] && ranked != [] ==> selected == [ranked[0].ref])
  }

  lemma PositivesArePrefix(ranked: seq<Candidate>)
    requires BestFirst(ranked)
    ensures Positive(ranked) <= ranked
  {
    PositiveIsShorter(ranked);
    PositivesComeFirst(ranked, |Positive(ranked)|);
  }

  lemma TopOfRanking(ranked: seq<Candidate>, maxSelected: nat)
    requires BestFirst(ranked)
    ensures Positive(ranked[..Min(maxSelected, |ranked|)]) == Positive(ranked)[..Min(maxSelected, |Positive(ranked)|)]
  {
    PositiveIsShorter(ranked);
    var n := Min(maxSelected, |ranked|);
    PositivesComeFirst(ranked, n);
    assert Min(n, |Positive(ranked)|) == Min(maxSelected, |Positive(ranked)|);
  }

  lemma SelectedAreBest(ranked: seq<Candidate>, maxSelected: nat)
    requires BestFirst(ranked) && maxSelected >= 1
    ensures SelectsBest(ranked, maxSelected, Selected(ranked, maxSelected))
  {
    PositivesArePrefix(ranked);
    TopOfRanking(ranked, maxSelected);
    var positive := Positive(ranked);
    var top := positive[..Min(maxSelected, |positive|)];
    assert |RefsOf(top)| == |top|;
  }

  lemma WithoutDisambiguation(m: map<string, Candidate>, ranked: seq<Candidate>, decision: Option<Decision>,
                              maxSelected: nat)
    requires IsRanking(m, ranked) && !Disambiguates(ranked, decision, maxSelected) && maxSelected >= 1
    ensures SelectsBest(ranked, maxSelected, Selected(FinalRanking(ranked, decision, maxSelected), maxSelected))
  {
    RankedBestFirst(ranked);
    SelectedAreBest(ranked, maxSelected);
  }

  // ---------- What comes out ----------

  function Scores(): Candidate -> bool {
    (c: Candidate) => c.score > 0.0
  }

  lemma {:induction false} PositiveIsCounted(cs: seq<Candidate>)
    ensures |Positive(cs)| == |Where(cs, Scores())|
  {
    if cs != [] {
      var init, last := cs[..|cs| - 1], cs[|cs| - 1];
      assert cs == init + [last];
      PositiveIsCounted(init);
      PositiveOfSplit(init, [last]);
      assert [last][1..] == [];
      WhereOneMore(init, last, Scores());
    }
  }

  ghost predicate IsAmong(c: Candidate, refs: seq<RepoRef>) {
    exists r <- refs :: Key(r) == Key(c.ref)
  }

  /** The ranking as it is, unless there is an answer and more candidates with a positive score than may be
      selected; then those with a positive score that it lists or does not drop, the listed ones first. */
  ghost predicate IsFinal(ranked: seq<Candidate>, decision: Option<Decision>, maxSelected: nat, final: seq<Candidate>) {
    if decision.None? || |Where(ranked, Scores())| <= maxSelected then final == ranked else
      var d := decision.value;
      && (forall c :: c in final <==>
          c in ranked && c.score > 0.0 && (IsAmong(c, d.ordered) || !IsAmong(c, d.dropped)))
      && ListedFirst(ranked, d, final)
  }

  lemma FinalIsFinal(m: map<string, Candidate>, ranked: seq<Candidate>, decision: Option<Decision>, maxSelected: nat)
    requires IsRanking(m, ranked)
    ensures IsFinal(ranked, decision, maxSelected, FinalRanking(ranked, decision, maxSelected))
  {
    PositiveIsCounted(ranked);
    if Disambiguates(ranked, decision, maxSelected) {
      DisambiguationOrders(ranked, decision, maxSelected);
      forall c
        ensures c in FinalRanking(ranked, decision, maxSelected) <==>
                && c in ranked && c.score > 0.0
                && (IsAmong(c, decision.value.ordered) || !IsAmong(c, decision.value.dropped))
      {
        DisambiguationKeepsExactly(ranked, decision, maxSelected, c);
      }
    }
  }

  /** The first candidates with a positive score, up to the limit; or the very first, if that leaves none. */
  ghost predicate IsSelection(final: seq<Candidate>, maxSelected: nat, selected: seq<RepoRef>) {
    exists p :: 0 <= p <= |final| && p <= maxSelected && SelectsUpTo(final, maxSelected, selected, p)
  }

  ghost predicate SelectsUpTo(final: seq<Candidate>, maxSelected: nat, selected: seq<RepoRef>, p: int)
    requires 0 <= p <= |final| && p <= maxSelected
  {
    && (forall i :: 0 <= i < p ==> final[i].score > 0.0)
    && (p < |final| && p < maxSelected ==> final[p].score <= 0.0)
    && if p > 0 then |selected| == p && forall i :: 0 <= i < p ==> selected[i] == final[i].ref
       else selected == if final == [] then [] else [final[0].ref]
  }

  ghost predicate PositivesFirst(cs: seq<Candidate>) {
    forall i, j :: 0 <= i < j < |cs| && cs[j].score > 0.0 ==> cs[i].score > 0.0
  }

  lemma SelectedIsSelection(final: seq<Candidate>, maxSelected: nat)
    requires PositivesFirst(final)
    ensures IsSelection(final, maxSelected, Selected(final, maxSelected))
  {
    var n := Min(maxSelected, |final|);
    var head := final[..n];
    var p := PositivesUpTo(head);
    assert SelectsUpTo(final, maxSelected, Selected(final, maxSelected), p);
  }

  lemma {:induction false} PositivesUpTo(cs: seq<Candidate>) returns (p: nat)
    requires PositivesFirst(cs)
    ensures p <= |cs| && Positive(cs) == cs[..p] && (forall i :: 0 <= i < p ==> cs[i].score > 0.0)
    ensures p < |cs| ==> cs[p].score <= 0.0
  {
    if cs == [] {
      p := 0;
    } else if cs[0].score > 0.0 {
      var tail := cs[1..];
      assert forall i :: 0 <= i < |tail| ==> tail[i] == cs[i + 1];
      p := PositivesUpTo(tail);
      assert cs[..p + 1] == [cs[0]] + tail[..p];
      p := p + 1;
    } else {
      forall c | c in cs ensures c.score <= 0.0 {
        var i :| 0 <= i < |cs| && cs[i] == c;
      }
      NothingPositive(cs);
      p := 0;
    }
  }

  lemma FinalPositivesFirst(m: map<string, Candidate>, ranked: seq<Candidate>, decision: Option<Decision>,
                            maxSelected: nat)
    requires IsRanking(m, ranked)
    ensures PositivesFirst(FinalRanking(ranked, decision, maxSelected))
  {
    var final := FinalRanking(ranked, decision, maxSelected);
    if Disambiguates(ranked, decision, maxSelected) {
      forall i | 0 <= i < |final| ensures final[i].score > 0.0 {
        DisambiguationKeepsExactly(ranked, decision, maxSelected, final[i]);
      }
    } else {
      RankedBestFirst(ranked);
    }
  }

  // ---------- Repeats ----------

  lemma {:induction false} UnlistedStaysDistinct(cs: seq<Candidate>, skip: set<string>)
    requires DistinctKeys(cs)
    ensures DistinctKeys(Unlisted(cs, skip))
  {
    if cs != [] {
      assert DistinctKeys(cs[1..]) by { assert forall i :: 0 <= i < |cs| - 1 ==> cs[1..][i] == cs[i + 1]; }
      UnlistedStaysDistinct(cs[1..], skip);
      forall c | c in Unlisted(cs[1..], skip) ensures Key(c.ref) != Key(cs[0].ref) {
        var i :| 0 <= i < |cs| - 1 && cs[1..][i] == c;
        assert cs[i + 1] == c;
      }
    }
  }

  lemma {:induction false} PositiveStaysDistinct(cs: seq<Candidate>)
    requires DistinctKeys(cs)
    ensures DistinctKeys(Positive(cs))
  {
    if cs != [] {
      assert DistinctKeys(cs[1..]) by { assert forall i :: 0 <= i < |cs| - 1 ==> cs[1..][i] == cs[i + 1]; }
      PositiveStaysDistinct(cs[1..]);
      forall c | c in Positive(cs[1..]) ensures Key(c.ref) != Key(cs[0].ref) {
        var i :| 0 <= i < |cs| - 1 && cs[1..][i] == c;
        assert cs[i + 1] == c;
      }
    }
  }

  lemma AppendKeepsDistinct(a: seq<Candidate>, b: seq<Candidate>)
    requires DistinctKeys(b) && forall c <- b :: Key(c.ref) !in CandidateKeys(a)
    ensures DistinctKeys(a + b) <==> DistinctKeys(a)
  {
    var all := a + b;
    assert forall i :: 0 <= i < |a| ==> all[i] == a[i];
    forall i, j | 0 <= i < |a| <= j < |all| ensures Key(all[i].ref) != Key(all[j].ref) {
      assert all[i] in a && all[j] in b;
    }
  }

  lemma {:induction false} KeyAt(cs: seq<Candidate>, i: nat)
    requires i < |cs|
    ensures |KeysOf(cs)| == |cs| && KeysOf(cs)[i] == Key(cs[i].ref)
  {
    if |cs| > 1 { KeyAt(cs[1..], if i > 0 then i - 1 else 0); }
  }

  lemma DistinctKeysIff(cs: seq<Candidate>)
    ensures DistinctKeys(cs) <==> NoDuplicates(KeysOf(cs))
  {
    if cs != [] { KeyAt(cs, 0); }
    forall i | 0 <= i < |cs| ensures KeysOf(cs)[i] == Key(cs[i].ref) { KeyAt(cs, i); }
  }

  /** A candidate is repeated in the final ranking exactly when the disambiguator lists a known
      repository twice. */
  lemma RepeatsOnlyWhatIsListedTwice(ranked: seq<Candidate>, decision: Option<Decision>, maxSelected: nat)
    requires Disambiguates(ranked, decision, maxSelected) && DistinctKeys(ranked)
    ensures DistinctKeys(FinalRanking(ranked, decision, maxSelected)) <==>
            NoDuplicates(ListedKeys(Positive(ranked), decision.value.ordered))
  {
    var known := Positive(ranked);
    var ordered := InOrder(known, decision.value.ordered);
    var skip := CandidateKeys(ordered) + KeysIn(decision.value.dropped);
    FinalIsReordered(ranked, decision, maxSelected);
    PositiveStaysDistinct(ranked);
    UnlistedStaysDistinct(known, skip);
    AppendKeepsDistinct(ordered, Unlisted(known, skip));
    InOrderFollowsTheList(known, decision.value.ordered);
    DistinctKeysIff(ordered);
  }
}
