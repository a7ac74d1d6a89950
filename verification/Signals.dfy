/** What the four signals contribute to the candidates. */
module Signals {
  import opened Wrappers
  import RepoRefs
  import opened Contributions
  import opened CodeHits
  import opened Candidates
  import opened Providers

  /** One contribution for each key that parses. */
  function KnownOf(keys: seq<string>, source: Source, score: real): seq<Contribution> {
    if keys == [] then [] else
      var earlier, ref := KnownOf(keys[..|keys| - 1], source, score), RepoRefs.RefFromKey(keys[|keys| - 1]);
      if ref.Some? then earlier + [Contribution(ref.value, source, score, HIGH, [], [])] else earlier
  }

  lemma KnownOneMore(keys: seq<string>, i: nat, source: Source, score: real)
    requires i < |keys|
    ensures
      var ref := RepoRefs.RefFromKey(keys[i]);
      KnownOf(keys[..i + 1], source, score) == KnownOf(keys[..i], source, score) +
        if ref.Some? then [Contribution(ref.value, source, score, HIGH, [], [])] else []
  {
    assert keys[..i + 1][..i] == keys[..i];
  }

  /** The contributions of the first three signals. */
  function Deterministic(mapped: seq<string>, remembered: seq<string>, providers: seq<Provider>, listed: Cache)
    : seq<Contribution>
  {
    AllKnown(mapped, remembered) + AllMetadata(providers, listed)
  }

  function MetadataContribution(d: Descriptor): Contribution {
    var score := MetadataScore(d.overlap, d.languageMatches, d.recent, d.archived);
    Contribution(d.ref, WORKSPACE_METADATA, score, if score > 0.0 then MEDIUM else LOW, [], [])
  }

  function MetadataOf(listed: seq<Descriptor>): (r: seq<Contribution>)
    ensures |r| == |listed| && forall i :: 0 <= i < |listed| ==> r[i] == MetadataContribution(listed[i])
  {
    seq(|listed|, i requires 0 <= i < |listed| => MetadataContribution(listed[i]))
  }

  function AllMetadata(providers: seq<Provider>, listed: Cache): seq<Contribution> {
    if providers == [] then [] else
      var n := |providers| - 1;
      AllMetadata(providers[..n], listed) + MetadataOf(ListedBy(providers[n], listed))
  }

  lemma {:induction false} MetadataPrefix(providers: seq<Provider>, listed: Cache, i: nat)
    requires i <= |providers|
    ensures AllMetadata(providers[..i], listed) <= AllMetadata(providers, listed)
  {
    if i == |providers| {
      assert providers[..i] == providers;
    } else {
      var init := providers[..|providers| - 1];
      assert init[..i] == providers[..i];
      MetadataPrefix(init, listed, i);
    }
  }

  /** The contributions `start`, then the hits of every list of matches. */
  function Replay(start: seq<Contribution>, lists: seq<seq<CodeMatch>>, specific: string -> bool): seq<Contribution> {
    if lists == [] then start else
      Replay(start, lists[..|lists| - 1], specific) + HitsOf(lists[|lists| - 1], specific)
  }

  lemma ReplayOneMore(start: seq<Contribution>, lists: seq<seq<CodeMatch>>, matches: seq<CodeMatch>,
                      specific: string -> bool)
    ensures Replay(start, lists + [matches], specific) == Replay(start, lists, specific) + HitsOf(matches, specific)
  {
    assert (lists + [matches])[..|lists|] == lists;
  }

  /** The match lists once those from the `i`-th on have been added. */
  function AddFrom(before: seq<seq<CodeMatch>>, lists: seq<seq<CodeMatch>>, i: nat): seq<seq<CodeMatch>>
    decreases |lists| - i
  {
    if i >= |lists| then before else AddFrom(before + [lists[i]], lists, i + 1)
  }

  /** The match lists once a provider's search has added its own, in the order `SearchCalls` counts the calls. */
  function SearchFinds(before: seq<seq<CodeMatch>>, p: Provider, listed: nat, terms: nat, t: nat,
                       hits: nat): seq<seq<CodeMatch>>
    decreases terms - t
  {
    if t >= terms || hits > 0 then before else
      var finds := TermFinds(p, listed, t);
      SearchFinds(AddFrom(before, finds, 0), p, listed, terms, t + 1, HitsFrom(finds, 0))
  }

  /** The match lists of all providers, in order. */
  function AllFinds(providers: seq<Provider>, listed: Cache, terms: nat, maxCandidates: nat): seq<seq<CodeMatch>> {
    if providers == [] then [] else
      var p := providers[|providers| - 1];
      SearchFinds(AllFinds(providers[..|providers| - 1], listed, terms, maxCandidates),
                  p, Min(maxCandidates, |ListedBy(p, listed)|), terms, 0, 0)
  }

  lemma AllSearchesOneMore(providers: seq<Provider>, listed: Cache, terms: nat, maxCandidates: nat, i: nat)
    requires i < |providers|
    ensures
      var p, upTo, next := providers[i], providers[..i], providers[..i + 1];
      var n := Min(maxCandidates, |ListedBy(p, listed)|);
      && AllFinds(next, listed, terms, maxCandidates)
         == SearchFinds(AllFinds(upTo, listed, terms, maxCandidates), p, n, terms, 0, 0)
      && AllSearchCalls(next, listed, terms, maxCandidates)
         == AllSearchCalls(upTo, listed, terms, maxCandidates) + SearchCalls(p, n, terms, 0, 0)
  {
    assert providers[..i + 1][..i] == providers[..i];
  }

  lemma MetadataOneMore(listed: seq<Descriptor>, i: nat)
    requires i < |listed|
    ensures MetadataOf(listed[..i + 1]) == MetadataOf(listed[..i]) + [MetadataContribution(listed[i])]
  {
  }

  lemma MetadataOfPrefix(listed: seq<Descriptor>, i: nat)
    requires i <= |listed|
    ensures MetadataOf(listed[..i]) <= MetadataOf(listed)
  {
  }

  lemma MetadataFails(start: seq<Contribution>, listed: seq<Descriptor>, i: nat)
    requires i <= |listed| && AddAll(map[], start + MetadataOf(listed[..i])) == None
    ensures AddAll(map[], start + MetadataOf(listed)) == None
  {
    MetadataOfPrefix(listed, i);
    FailsForGood(map[], start + MetadataOf(listed[..i]), start + MetadataOf(listed));
  }

  lemma AllMetadataOneMore(providers: seq<Provider>, listed: Cache, i: nat)
    requires i < |providers|
    ensures AllMetadata(providers[..i + 1], listed) ==
            AllMetadata(providers[..i], listed) + MetadataOf(ListedBy(providers[i], listed))
  {
    assert providers[..i + 1][..i] == providers[..i];
  }

  lemma AllMetadataFails(start: seq<Contribution>, providers: seq<Provider>, listed: Cache, i: nat)
    requires i <= |providers| && AddAll(map[], start + AllMetadata(providers[..i], listed)) == None
    ensures AddAll(map[], start + AllMetadata(providers, listed)) == None
  {
    MetadataPrefix(providers, listed, i);
    FailsForGood(map[], start + AllMetadata(providers[..i], listed), start + AllMetadata(providers, listed));
  }

  /** Once a contribution raises, the rest does not matter. */
  lemma {:induction false} FailsForGood(m: map<string, Candidate>, adds: seq<Contribution>, all: seq<Contribution>)
    requires adds <= all && AddAll(m, adds) == None
    ensures AddAll(m, all) == None
    decreases |all|
  {
    if |adds| < |all| {
      FailsForGood(m, adds, all[..|all| - 1]);
    } else {
      assert adds == all;
    }
  }

  // ---------- When the first three signals raise ----------

  /** Everything listed, provider by provider. */
  function AllListed(providers: seq<Provider>, listed: Cache): seq<Descriptor> {
    if providers == [] then [] else
      var n := |providers| - 1;
      AllListed(providers[..n], listed) + ListedBy(providers[n], listed)
  }

  /** The key parses, so that a mapped or remembered repository is found by it. */
  predicate Finds(keys: seq<string>, key: string) {
    key in keys && RepoRefs.RefFromKey(key).Some?
  }

  /** Archived, and with less than two points of its own. */
  predicate ScoresNegative(d: Descriptor) {
    d.archived
    && ((d.overlap == 0 && !(d.languageMatches && d.recent)) || (d.overlap == 1 && !d.languageMatches && !d.recent))
  }

  ghost predicate IsFirstListed(ds: seq<Descriptor>, i: nat)
    requires i < |ds|
  {
    forall j :: 0 <= j < i ==> RepoRefs.Key(ds[j].ref) != RepoRefs.Key(ds[i].ref)
  }

  /** Some repository that no mapped or remembered key finds scores negative where it is first listed. */
  ghost predicate Raises(mapped: seq<string>, remembered: seq<string>, ds: seq<Descriptor>) {
    exists i :: 0 <= i < |ds| && RaisesAt(mapped, remembered, ds, i)
  }

  ghost predicate RaisesAt(mapped: seq<string>, remembered: seq<string>, ds: seq<Descriptor>, i: nat)
    requires i < |ds|
  {
    var key := RepoRefs.Key(ds[i].ref);
    IsFirstListed(ds, i) && ScoresNegative(ds[i]) && !Finds(mapped, key) && !Finds(remembered, key)
  }

  lemma {:induction false} AllMetadataIsOfAllListed(providers: seq<Provider>, listed: Cache)
    ensures AllMetadata(providers, listed) == MetadataOf(AllListed(providers, listed))
  {
    if providers != [] {
      var n := |providers| - 1;
      var earlier, last := AllListed(providers[..n], listed), ListedBy(providers[n], listed);
      AllMetadataIsOfAllListed(providers[..n], listed);
      assert MetadataOf(earlier + last) == MetadataOf(earlier) + MetadataOf(last);
    }
  }

  /** A key finds exactly the repository it prints. */
  lemma {:induction false} KnownMentionsIff(keys: seq<string>, source: Source, score: real, k: string)
    ensures Mentions(k, KnownOf(keys, source, score)) <==> Finds(keys, k)
    ensures forall c <- KnownOf(keys, source, score) :: c.score == score
  {
    if keys != [] {
      var init, last := keys[..|keys| - 1], keys[|keys| - 1];
      assert keys == init + [last];
      KnownMentionsIff(init, source, score, k);
      var earlier, ref := KnownOf(init, source, score), RepoRefs.RefFromKey(last);
      if ref.Some? {
        RepoRefs.ParseThenPrint(last);
        MentionsOneMore(k, earlier, Contribution(ref.value, source, score, HIGH, [], []));
      }
    }
  }

  lemma MentionsOneMore(k: string, init: seq<Contribution>, last: Contribution)
    ensures Mentions(k, init + [last]) <==> Mentions(k, init) || RepoRefs.Key(last.ref) == k
  {
    assert forall a :: a in init + [last] <==> a in init || a == last;
  }

  /** The `i`-th of `more` is the first for its repository, after `known`, and negative. */
  ghost predicate Fails(known: seq<Contribution>, more: seq<Contribution>, i: nat)
    requires i < |more|
  {
    IsFirst(i, more) && !Mentions(RepoRefs.Key(more[i].ref), known) && more[i].score < 0.0
  }

  /** Contributions that are all non-negative, then others. */
  lemma FirstsAfter(known: seq<Contribution>, more: seq<Contribution>)
    requires forall c <- known :: c.score >= 0.0
    ensures !FirstsAreNonNegative(known + more) <==> exists i :: 0 <= i < |more| && Fails(known, more, i)
  {
    var all, n := known + more, |known|;
    if i :| 0 <= i < |more| && Fails(known, more, i) {
      FirstAfterIff(known, more, i);
      assert all[n + i] == more[i];
    }
    forall j | 0 <= j < n ensures all[j].score >= 0.0 { assert known[j] in known; }
    if !FirstsAreNonNegative(all) {
      var j :| 0 <= j < |all| && IsFirst(j, all) && all[j].score < 0.0;
      FirstAfterIff(known, more, j - n);
      assert Fails(known, more, j - n);
    }
  }

  lemma FirstAfterIff(known: seq<Contribution>, more: seq<Contribution>, i: nat)
    requires i < |more|
    ensures IsFirst(|known| + i, known + more) <==> IsFirst(i, more) && !Mentions(RepoRefs.Key(more[i].ref), known)
  {
    var all, n := known + more, |known|;
    assert all[n + i] == more[i];
    if IsFirst(n + i, all) {
      forall j | 0 <= j < i ensures RepoRefs.Key(more[j].ref) != RepoRefs.Key(more[i].ref) {
        assert all[n + j] == more[j];
      }
      forall a <- known ensures RepoRefs.Key(a.ref) != RepoRefs.Key(more[i].ref) {
        var j :| 0 <= j < n && known[j] == a;
        assert all[j] == a;
      }
    } else {
      var j :| 0 <= j < n + i && RepoRefs.Key(all[j].ref) == RepoRefs.Key(more[i].ref);
      if j < n { assert known[j] in known; } else { assert all[j] == more[j - n]; }
    }
  }

  lemma ScoresNegativeIff(d: Descriptor)
    ensures ScoresNegative(d) <==> MetadataContribution(d).score < 0.0
  {
  }

  /** What the mapped and the remembered keys contribute. */
  function AllKnown(mapped: seq<string>, remembered: seq<string>): seq<Contribution> {
    KnownOf(mapped, STATIC_MAPPING, 10.0) + KnownOf(remembered, HISTORICAL_CASE, 8.0)
  }

  lemma AllKnownMentionsIff(mapped: seq<string>, remembered: seq<string>, k: string)
    ensures Mentions(k, AllKnown(mapped, remembered)) <==> Finds(mapped, k) || Finds(remembered, k)
    ensures forall c <- AllKnown(mapped, remembered) :: c.score >= 0.0
  {
    KnownMentionsIff(mapped, STATIC_MAPPING, 10.0, k);
    KnownMentionsIff(remembered, HISTORICAL_CASE, 8.0, k);
    var first, second := KnownOf(mapped, STATIC_MAPPING, 10.0), KnownOf(remembered, HISTORICAL_CASE, 8.0);
    assert Mentions(k, first + second) <==> Mentions(k, first) || Mentions(k, second);
  }

  lemma FailsIffRaisesAt(mapped: seq<string>, remembered: seq<string>, ds: seq<Descriptor>, i: nat)
    requires i < |ds|
    ensures Fails(AllKnown(mapped, remembered), MetadataOf(ds), i) <==> RaisesAt(mapped, remembered, ds, i)
  {
    var more := MetadataOf(ds);
    AllKnownMentionsIff(mapped, remembered, RepoRefs.Key(ds[i].ref));
    ScoresNegativeIff(ds[i]);
    assert IsFirst(i, more) <==> IsFirstListed(ds, i) by {
      assert forall j :: 0 <= j <= i ==> more[j].ref == ds[j].ref;
    }
  }

  /** Adding what the first three signals contribute raises exactly then. */
  lemma RaisesIff(mapped: seq<string>, remembered: seq<string>, providers: seq<Provider>, listed: Cache)
    ensures AddAll(map[], Deterministic(mapped, remembered, providers, listed)) == None <==>
            Raises(mapped, remembered, AllListed(providers, listed))
  {
    var known, ds := AllKnown(mapped, remembered), AllListed(providers, listed);
    AllMetadataIsOfAllListed(providers, listed);
    SucceedsIffFirstsAreNonNegative(known + MetadataOf(ds));
    AllKnownMentionsIff(mapped, remembered, "");
    FirstsAfter(known, MetadataOf(ds));
    forall i | 0 <= i < |ds|
      ensures Fails(known, MetadataOf(ds), i) <==> RaisesAt(mapped, remembered, ds, i)
    {
      FailsIffRaisesAt(mapped, remembered, ds, i);
    }
  }
}
