/** `DiscoveryService`: list repositories under a call budget, search code, rank and select. */
module Discovery {
  import opened Wrappers
  import opened Control
  import RepoRefs
  import opened Contributions
  import CodeHits
  import opened Candidates
  import Ranking
  import opened Providers
  import opened Signals
  import Scores
  import opened CodeSearches

  /** What the case yields: mapped and remembered repository keys, and how many search terms. */
  datatype Query = Query(mapped: seq<string>, remembered: seq<string>, terms: nat)

  datatype DiscoveryPolicy = DiscoveryPolicy(maxCalls: nat, maxListed: nat, maxCandidates: nat, maxSelected: nat,
                                             codeSearchEnabled: bool)

  /** The contributions of the first three signals. */
  function FirstSignals(q: Query, policy: DiscoveryPolicy, providers: seq<Provider>, ls: Listings): seq<Contribution>
    requires |ls.pages| == |providers|
  {
    Deterministic(q.mapped, q.remembered, providers, ByConnection(providers, ls.pages, policy.maxListed))
  }

  /** All repositories that the providers listed. */
  function EverythingListed(policy: DiscoveryPolicy, providers: seq<Provider>, ls: Listings): seq<Descriptor>
    requires |ls.pages| == |providers|
  {
    AllListed(providers, ByConnection(providers, ls.pages, policy.maxListed))
  }

  /** The code search takes place. */
  predicate Searches(q: Query, policy: DiscoveryPolicy, providers: seq<Provider>, ls: Listings)
    requires |ls.pages| == |providers| && |ls.budgets| == |providers| + 1
  {
    && AddAll(map[], FirstSignals(q, policy, providers, ls)).Some?
    && policy.codeSearchEnabled && q.terms > 0 && ls.budgets[|providers|] > 0
  }

  function SearchCallsMade(q: Query, policy: DiscoveryPolicy, providers: seq<Provider>, ls: Listings): nat
    requires |ls.pages| == |providers| && |ls.budgets| == |providers| + 1
  {
    if !Searches(q, policy, providers, ls) then 0 else
      AllSearchCalls(providers, ByConnection(providers, ls.pages, policy.maxListed), Min(3, q.terms),
                     policy.maxCandidates)
  }

  function FindsMade(q: Query, policy: DiscoveryPolicy, providers: seq<Provider>,
                     ls: Listings): seq<seq<CodeHits.CodeMatch>>
    requires |ls.pages| == |providers| && |ls.budgets| == |providers| + 1
  {
    if !Searches(q, policy, providers, ls) then [] else
      AllFinds(providers, ByConnection(providers, ls.pages, policy.maxListed), Min(3, q.terms), policy.maxCandidates)
  }

  /** The contributions of all four signals. */
  function AllSignals(q: Query, policy: DiscoveryPolicy, providers: seq<Provider>, ls: Listings,
                      specific: string -> bool)
    : seq<Contribution>
    requires |ls.pages| == |providers| && |ls.budgets| == |providers| + 1
  {
    Replay(FirstSignals(q, policy, providers, ls), FindsMade(q, policy, providers, ls), specific)
  }

  /** The provider calls of a discovery: those charged to the budget, and the searches. */
  function CallsMade(q: Query, policy: DiscoveryPolicy, providers: seq<Provider>, ls: Listings): int
    requires |ls.pages| == |providers| && |ls.budgets| == |providers| + 1
  {
    ls.budgets[0] - ls.budgets[|providers|] + SearchCallsMade(q, policy, providers, ls)
  }

  /** The calls a discovery reports: its receipts are one for each provider listed, cached or not,
      and one for each search. */
  function CallsReported(q: Query, policy: DiscoveryPolicy, providers: seq<Provider>, ls: Listings): nat
    requires |ls.pages| == |providers| && |ls.budgets| == |providers| + 1
  {
    |providers| + SearchCallsMade(q, policy, providers, ls)
  }

  lemma FailedOneMore(ls: Listings, page: Listing, budget: int, cache: Cache)
    ensures SomeListingFailed(Add(ls, page, budget, cache)) <==> SomeListingFailed(ls) || page.status != SUCCEEDED
  {
    var pages := Add(ls, page, budget, cache).pages;
    assert pages[|ls.pages|] == page && forall i :: 0 <= i < |ls.pages| ==> pages[i] == ls.pages[i];
  }

  /** After listing these providers: what was listed, and whether it is degraded. */
  ghost predicate ListedSo(providers: seq<Provider>, ls: Listings, expired: set<nat>, maxListed: nat, listed: Cache,
                           degraded: bool) {
    && AreListings(providers, ls, expired, maxListed)
    && listed == ByConnection(providers, ls.pages, maxListed) && (degraded <==> SomeListingFailed(ls))
  }

  lemma ListedOneMore(providers: seq<Provider>, ls: Listings, p: Provider, page: Listing, budget: int, cache: Cache,
                      expired: set<nat>, maxListed: nat, listed: Cache, degraded: bool)
    requires ListedSo(providers, ls, expired, maxListed, listed, degraded)
    requires
      var n := |providers|;
      IsListing(p, page, ls.budgets[n], budget, ls.caches[n], cache, n in expired, maxListed)
    ensures
      var ok := page.status == SUCCEEDED;
      ListedSo(providers + [p], Add(ls, page, budget, cache), expired, maxListed,
               if ok then listed[p.connection := page.repositories[..Min(maxListed, |page.repositories|)]] else listed,
               degraded || !ok)
  {
    ListingsOneMore(providers, ls, p, page, budget, cache, expired, maxListed);
    ByConnectionOneMore(providers, ls.pages, p, page, maxListed);
    FailedOneMore(ls, page, budget, cache);
  }

  class DiscoveryService {
    /** `WorkspaceListCache`; whether an entry has expired is decided at each lookup. */
    var cache: Cache
    var budget: int
    var listCalls: nat
    var searchCalls: nat
    const found: CandidateMap

    constructor (maxCalls: nat, cache: Cache)
      ensures this.cache == cache && budget == maxCalls && listCalls == 0 && searchCalls == 0
      ensures fresh(found) && found.Valid() && found.history == []
    {
      this.cache, budget, listCalls, searchCalls := cache, maxCalls, 0, 0;
      found := new CandidateMap();
    }

    /** The calls of `_list_repositories`, page by page. */
    method Fetch(p: Provider, maxListed: nat) returns (page: Listing)
      requires budget >= 0
      modifies this`cache, this`budget, this`listCalls
      ensures 0 <= budget <= old(budget) && budget + listCalls == old(budget) + old(listCalls)
      ensures ListingTakes(p, old(budget) - budget, old(budget), maxListed)
      ensures page == ListingAfter(p, old(budget) - budget, maxListed)
      ensures cache == if page.status == SUCCEEDED then old(cache)[p.connection := page.repositories]
                       else old(cache) - {p.connection}
    {
      cache := cache - {p.connection};
      var descriptors: seq<Descriptor>, n: nat, more := [], 0, true;
      while |descriptors| < maxListed && budget > 0 && more
        invariant budget >= 0 && n == old(budget) - budget && listCalls == old(listCalls) + n
        invariant cache == old(cache) - {p.connection}
        invariant descriptors == Listed(p, n)
        invariant forall k :: 0 <= k < n ==> GoesOn(p, k, maxListed)
        invariant n > 0 ==> p.ListReplyAt(n - 1).status == SUCCEEDED
        invariant more <==> n == 0 || p.ListReplyAt(n - 1).cursor != ""
        decreases budget
      {
        assert GoesOn(p, n, maxListed);
        budget, listCalls := budget - 1, listCalls + 1;
        var reply := p.ListReplyAt(n);
        n := n + 1;
        if reply.status != SUCCEEDED {
          return Listing(descriptors, reply.status);
        }
        descriptors := descriptors + reply.repositories;
        more := reply.cursor != "";
      }
      if n == 0 {
        return Listing([], BLOCKED);
      }
      page := Listing(descriptors[..Min(maxListed, |descriptors|)], SUCCEEDED);
      cache := cache[p.connection := page.repositories];
      assert cache == old(cache)[p.connection := page.repositories];
    }

    /** `_list_repositories`. */
    method ListRepositories(p: Provider, maxListed: nat, expired: bool) returns (page: Listing)
      requires budget >= 0
      modifies this`cache, this`budget, this`listCalls
      ensures budget >= 0 && budget + listCalls == old(budget) + old(listCalls)
      ensures IsListing(p, page, old(budget), budget, old(cache), cache, expired, maxListed)
      ensures p.connection !in old(cache) || expired ==>
        Asks(p, old(budget) - budget, old(budget), maxListed) && IsPage(p, old(budget) - budget, maxListed, page)
    {
      if p.connection in cache && !expired {
        return Listing(cache[p.connection], SUCCEEDED);
      }
      page := Fetch(p, maxListed);
      TakesWhatItAsks(p, old(budget) - budget, old(budget), maxListed);
    }

    /** Lists every provider; a failed one only degrades the result. */
    method ListAll(providers: seq<Provider>, maxListed: nat, expired: set<nat>)
      returns (listed: Cache, degraded: bool, receipts: nat, ghost ls: Listings)
      requires budget >= 0
      modifies this`cache, this`budget, this`listCalls
      ensures budget >= 0 && budget + listCalls == old(budget) + old(listCalls)
      ensures AreListings(providers, ls, expired, maxListed) && Spans(ls, old(budget), old(cache), budget, cache)
      ensures listed == ByConnection(providers, ls.pages, maxListed)
      ensures degraded <==> SomeListingFailed(ls)
      ensures receipts == |providers|
    {
      listed, degraded, receipts, ls := map[], false, 0, Listings([], [budget], [cache]);
      for i := 0 to |providers|
        invariant budget >= 0 && budget + listCalls == old(budget) + old(listCalls)
        invariant ListedSo(providers[..i], ls, expired, maxListed, listed, degraded)
        invariant Spans(ls, old(budget), old(cache), budget, cache)
        invariant receipts == i
      {
        receipts := receipts + 1;
        var page := ListRepositories(providers[i], maxListed, i in expired);
        assert providers[..i + 1] == providers[..i] + [providers[i]];
        ListedOneMore(providers[..i], ls, providers[i], page, budget, cache, expired, maxListed, listed, degraded);
        ls := Add(ls, page, budget, cache);
        if page.status != SUCCEEDED {
          degraded := true;
        } else {
          listed := listed[providers[i].connection := page.repositories[..Min(maxListed, |page.repositories|)]];
        }
      }
      assert providers[..|providers|] == providers;
    }

    /** Signals 1 and 2: keys that do not parse are skipped. */
    method AddKnown(keys: seq<string>, source: Source, score: real)
      requires score >= 0.0 && found.Valid()
      modifies found
      ensures found.Valid() && found.history == old(found.history) + KnownOf(keys, source, score)
    {
      ghost var start, known := found.history, [];
      for i := 0 to |keys|
        invariant known == KnownOf(keys[..i], source, score) && found.Valid() && found.history == start + known
      {
        KnownOneMore(keys, i, source, score);
        var ref := RepoRefs.RefFromKey(keys[i]);
        if ref.Some? {
          var c := Contribution(ref.value, source, score, HIGH, [], []);
          var ok := found.AddCandidate(c);
          RepoRefs.Associates(start, known, [c]);
          known := known + [c];
        }
      }
      assert keys[..|keys|] == keys;
    }

    method AddAllKnown(mapped: seq<string>, remembered: seq<string>)
      requires found.Valid() && found.history == []
      modifies found
      ensures found.Valid()
      ensures found.history == KnownOf(mapped, STATIC_MAPPING, 10.0) + KnownOf(remembered, HISTORICAL_CASE, 8.0)
    {
      AddKnown(mapped, STATIC_MAPPING, 10.0);
      assert found.history == KnownOf(mapped, STATIC_MAPPING, 10.0);
      AddKnown(remembered, HISTORICAL_CASE, 8.0);
    }

    /** Scores what one provider listed; false when a candidate's contract rejects its score. */
    method ScoreMetadata(listed: seq<Descriptor>) returns (ok: bool)
      requires found.Valid()
      modifies found
      ensures found.Valid()
      ensures ok ==> found.history == old(found.history) + MetadataOf(listed)
      ensures !ok ==> AddAll(map[], old(found.history) + MetadataOf(listed)) == None
    {
      ghost var start, done := found.history, [];
      for i := 0 to |listed|
        invariant done == MetadataOf(listed[..i]) && found.Valid() && found.history == start + done
      {
        var c := MetadataContribution(listed[i]);
        MetadataOneMore(listed, i);
        RepoRefs.Associates(start, done, [c]);
        AddOneMore(map[], found.history, c);
        ok := found.AddCandidate(c);
        done := done + [c];
        if !ok {
          MetadataFails(start, listed, i + 1);
          return false;
        }
      }
      assert listed[..|listed|] == listed;
      return true;
    }

    /** Signal 3: scores what each provider listed. */
    method ScoreAll(providers: seq<Provider>, listed: Cache) returns (ok: bool)
      requires found.Valid()
      modifies found
      ensures found.Valid()
      ensures ok ==> found.history == old(found.history) + AllMetadata(providers, listed)
      ensures !ok ==> AddAll(map[], old(found.history) + AllMetadata(providers, listed)) == None
    {
      ghost var start, done := found.history, [];
      for i := 0 to |providers|
        invariant done == AllMetadata(providers[..i], listed) && found.Valid() && found.history == start + done
      {
        var descriptors := ListedBy(providers[i], listed);
        AllMetadataOneMore(providers, listed, i);
        ok := ScoreMetadata(descriptors);
        RepoRefs.Associates(start, done, MetadataOf(descriptors));
        done := done + MetadataOf(descriptors);
        if !ok {
          AllMetadataFails(start, providers, listed, i + 1);
          return false;
        }
      }
      assert providers[..|providers|] == providers;
      return true;
    }

    /** What was added since `start` are the hits of these lists of matches. */
    ghost predicate Logged(start: seq<Contribution>, lists: seq<seq<CodeHits.CodeMatch>>, specific: string -> bool)
      reads found
    {
      found.Valid() && found.history == Replay(start, lists, specific)
    }

    /** Records what one search found. */
    method RecordSearch(matches: seq<CodeHits.CodeMatch>, specific: string -> bool,
                        ghost start: seq<Contribution>, ghost lists: seq<seq<CodeHits.CodeMatch>>)
      requires Logged(start, lists, specific)
      modifies this`searchCalls, found
      ensures searchCalls == old(searchCalls) + 1 && Logged(start, lists + [matches], specific)
    {
      searchCalls := searchCalls + 1;
      ReplayOneMore(start, lists, matches, specific);
      found.RecordCodeHits(matches, specific);
    }

    /** Fan out: `results` is what the searches of the listed repositories find, one by one. */
    method SearchEach(results: seq<seq<CodeHits.CodeMatch>>, specific: string -> bool,
                      ghost start: seq<Contribution>, ghost lists: seq<seq<CodeHits.CodeMatch>>)
      returns (hits: nat)
      requires budget > 0 && Logged(start, lists, specific)
      modifies this`searchCalls, found
      ensures searchCalls == old(searchCalls) + |results| && hits == HitsFrom(results, 0)
      ensures Logged(start, AddFrom(lists, results, 0), specific)
    {
      hits := 0;
      ghost var finds, all, now := AddFrom(lists, results, 0), HitsFrom(results, 0), lists;
      for i := 0 to |results|
        invariant budget > 0 && searchCalls == old(searchCalls) + i && Logged(start, now, specific)
        invariant hits + HitsFrom(results, i) == all && AddFrom(now, results, i) == finds
      {
        if budget <= 0 { break; }
        RecordSearch(results[i], specific, start, now);
        now := now + [results[i]];
        hits := hits + |results[i]|;
      }
    }

    /** The search for one term: over the workspace, or fanned out over the listed repositories. */
    method SearchTerm(p: Provider, n: nat, t: nat, specific: string -> bool,
                      ghost start: seq<Contribution>, ghost lists: seq<seq<CodeHits.CodeMatch>>)
      returns (hits: nat)
      requires budget > 0 && Logged(start, lists, specific)
      modifies this`searchCalls, found
      ensures searchCalls == old(searchCalls) + TermCalls(p, n, t) && hits == HitsFrom(TermFinds(p, n, t), 0)
      ensures Logged(start, AddFrom(lists, TermFinds(p, n, t), 0), specific)
    {
      var reply := p.SearchReplyAt(t);
      if FansOut(reply) {
        searchCalls := searchCalls + 1;
        hits := SearchEach(p.FanOut(t, n), specific, start, lists);
      } else {
        RecordSearch(reply.matches, specific, start, lists);
        hits := |reply.matches|;
      }
    }

    /** The searches of one provider, and what they come to. */
    method SearchProvider(p: Provider, n: nat, terms: nat, specific: string -> bool,
                          ghost start: seq<Contribution>, ghost lists: seq<seq<CodeHits.CodeMatch>>)
      returns (hits: nat)
      requires budget > 0 && Logged(start, lists, specific)
      modifies this`searchCalls, found
      ensures searchCalls == old(searchCalls) + SearchCalls(p, n, terms, 0, 0)
      ensures AreSearchCalls(p, n, terms, searchCalls - old(searchCalls))
      ensures Logged(start, SearchFinds(lists, p, n, terms, 0, 0), specific)
    {
      hits := SearchTerms(p, n, terms, specific, start, lists);
      SearchCallsAre(p, n, terms);
    }

    /** The code-search loop over the terms of one provider. */
    method SearchTerms(p: Provider, n: nat, terms: nat, specific: string -> bool,
                       ghost start: seq<Contribution>, ghost lists: seq<seq<CodeHits.CodeMatch>>)
      returns (hits: nat)
      requires budget > 0 && Logged(start, lists, specific)
      modifies this`searchCalls, found
      ensures searchCalls == old(searchCalls) + SearchCalls(p, n, terms, 0, 0)
      ensures Logged(start, SearchFinds(lists, p, n, terms, 0, 0), specific)
    {
      hits := 0;
      ghost var finds, all, now :=
          SearchFinds(lists, p, n, terms, 0, 0), searchCalls + SearchCalls(p, n, terms, 0, 0), lists;
      var t := 0;
      while t < terms && budget > 0 && hits == 0
        invariant budget > 0 && t <= terms && Logged(start, now, specific)
        invariant searchCalls + SearchCalls(p, n, terms, t, hits) == all
        invariant SearchFinds(now, p, n, terms, t, hits) == finds
        decreases terms - t
      {
        hits := SearchTerm(p, n, t, specific, start, now);
        now := AddFrom(now, TermFinds(p, n, t), 0);
        t := t + 1;
      }
    }

    /** Signal 4: searches every provider. */
    method SearchAll(providers: seq<Provider>, listed: Cache, terms: nat, specific: string -> bool, maxCandidates: nat)
      requires budget > 0 && found.Valid()
      modifies this`searchCalls, found
      ensures searchCalls == old(searchCalls) + AllSearchCalls(providers, listed, terms, maxCandidates)
      ensures Logged(old(found.history), AllFinds(providers, listed, terms, maxCandidates), specific)
    {
      ghost var start := found.history;
      for i := 0 to |providers|
        invariant budget > 0 && Logged(start, AllFinds(providers[..i], listed, terms, maxCandidates), specific)
        invariant searchCalls == old(searchCalls) + AllSearchCalls(providers[..i], listed, terms, maxCandidates)
      {
        var p, n := providers[i], Min(maxCandidates, |ListedBy(providers[i], listed)|);
        ghost var finds := AllFinds(providers[..i], listed, terms, maxCandidates);
        AllSearchesOneMore(providers, listed, terms, maxCandidates, i);
        var hits := SearchProvider(p, n, terms, specific, start, finds);
      }
      assert providers[..|providers|] == providers;
    }

    /** The four signals, in order; false when a candidate's contract rejects a score. */
    method GatherCandidates(q: Query, policy: DiscoveryPolicy, providers: seq<Provider>, expired: set<nat>,
                            specific: string -> bool)
      returns (ok: bool, degraded: bool, receipts: nat, ghost ls: Listings)
      requires budget >= 0 && found.Valid() && found.history == []
      modifies this, found
      ensures budget >= 0 && budget + listCalls == old(budget) + old(listCalls) && found.Valid()
      ensures AreListings(providers, ls, expired, policy.maxListed) && Spans(ls, old(budget), old(cache), budget, cache)
      ensures ok <==> AddAll(map[], FirstSignals(q, policy, providers, ls)).Some?
      ensures searchCalls == old(searchCalls) + SearchCallsMade(q, policy, providers, ls)
      ensures (degraded <==> SomeListingFailed(ls)) && receipts == |providers|
      ensures ok ==> Logged(FirstSignals(q, policy, providers, ls), FindsMade(q, policy, providers, ls), specific)
    {
      AddAllKnown(q.mapped, q.remembered);
      var listed;
      listed, degraded, receipts, ls := ListAll(providers, policy.maxListed, expired);
      ok := ScoreAll(providers, listed);
      if ok && policy.codeSearchEnabled && q.terms > 0 && budget > 0 {
        SearchAll(providers, listed, Min(3, q.terms), specific, policy.maxCandidates);
      }
    }

    /** One discovery: gather, rank, select. `disambiguator` is what it would answer here, if there
        is one. None when a candidate's contract rejects a score. */
    method Discover(q: Query, policy: DiscoveryPolicy, providers: seq<Provider>, expired: set<nat>,
                    specific: string -> bool, disambiguator: Option<Ranking.Decision>)
      returns (result: Option<Result>, ghost ls: Listings)
      requires budget == policy.maxCalls && listCalls == searchCalls == 0 && found.Valid() && found.history == []
      modifies this, found
      ensures AreListings(providers, ls, expired, policy.maxListed)
        && Spans(ls, policy.maxCalls, old(cache), budget, cache)
      ensures budget >= 0 && listCalls == policy.maxCalls - budget
      ensures listCalls + searchCalls == CallsMade(q, policy, providers, ls)
      ensures result.None? <==> Raises(q.mapped, q.remembered, EverythingListed(policy, providers, ls))
      ensures result.Some? ==>
        && AreCandidates(q, policy, providers, ls, specific, found.candidates)
        && (result.value.degraded <==> SomeListingFailed(ls))
        && result.value.callsReported == CallsReported(q, policy, providers, ls)
        && IsOutcome(found.candidates, result.value, disambiguator, policy.maxSelected)
    {
      var ok, degraded, receipts;
      ok, degraded, receipts, ls := GatherCandidates(q, policy, providers, expired, specific);
      RaisesIff(q.mapped, q.remembered, providers, ByConnection(providers, ls.pages, policy.maxListed));
      if !ok { return None, ls; }
      GatheredAreCandidates(q, policy, providers, ls, specific, found.history, found.candidates);
      var r := RankAndSelect(found.candidates, disambiguator, policy.maxSelected, degraded, receipts + searchCalls);
      result := Some(r);
    }
  }

  /** The result is the ranking of the candidates, as the disambiguator reordered it, and the selection from it. */
  ghost predicate IsOutcome(m: map<string, Candidate>, r: Result, decision: Option<Ranking.Decision>,
                            maxSelected: nat) {
    exists ranked | Ranking.IsRanking(m, ranked) ::
      && r.candidates == Ranking.FinalRanking(ranked, decision, maxSelected)
      && r.selected == Ranking.Selected(r.candidates, maxSelected)
      && Ranking.IsFinal(ranked, decision, maxSelected, r.candidates)
      && Ranking.IsSelection(r.candidates, maxSelected, r.selected)
  }

  /** The last part of a discovery. */
  method RankAndSelect(m: map<string, Candidate>, decision: Option<Ranking.Decision>, maxSelected: nat,
                       degraded: bool, calls: nat)
    returns (r: Result)
    requires forall k <- m :: RepoRefs.Key(m[k].ref) == k
    ensures IsOutcome(m, r, decision, maxSelected) && r.degraded == degraded && r.callsReported == calls
  {
    var ranked := Ranking.RankCandidates(m);
    var final := Ranking.FinalRanking(ranked, decision, maxSelected);
    r := Result(final, Ranking.Selected(final, maxSelected), degraded, calls);
    Ranking.FinalIsFinal(m, ranked, decision, maxSelected);
    Ranking.FinalPositivesFirst(m, ranked, decision, maxSelected);
    Ranking.SelectedIsSelection(final, maxSelected);
  }

  /** The candidates sum up the four signals: they are what follows from the keys known, the repositories listed
      and the matches found. */
  ghost predicate AreCandidates(q: Query, policy: DiscoveryPolicy, providers: seq<Provider>, ls: Listings,
                                specific: string -> bool, m: map<string, Candidate>)
    requires |ls.pages| == |providers| && |ls.budgets| == |providers| + 1
  {
    && Summarises(m, AllSignals(q, policy, providers, ls, specific))
    && Scores.Explains(m, q.mapped, q.remembered, EverythingListed(policy, providers, ls),
                       Flat(FindsMade(q, policy, providers, ls)), specific)
    && AreMatches(q, policy, providers, ls, Flat(FindsMade(q, policy, providers, ls)))
    && KeepsLastListed(providers, ls.pages, policy.maxListed, ByConnection(providers, ls.pages, policy.maxListed))
    && forall k <- m :: RepoRefs.Key(m[k].ref) == k
  }

  /** The matches are those that the searches find: none unless code search is enabled, there is a term and a call
      is left after listing; otherwise those of the first of at most three terms that finds something, for each
      provider, in at most `maxCandidates` repositories where it has to be searched one by one. */
  ghost predicate AreMatches(q: Query, policy: DiscoveryPolicy, providers: seq<Provider>, ls: Listings,
                             matches: seq<CodeHits.CodeMatch>)
    requires |ls.pages| == |providers| && |ls.budgets| == |providers| + 1
  {
    var listed := ByConnection(providers, ls.pages, policy.maxListed);
    var terms := if q.terms > 3 then 3 else q.terms;
    if policy.codeSearchEnabled && q.terms > 0 && ls.budgets[|providers|] > 0 then
      forall m :: m in matches <==>
        exists p <- providers :: IsFoundBy(p, SearchedOf(p, listed, policy.maxCandidates), terms, m)
    else matches == []
  }

  lemma FindsAreMatches(q: Query, policy: DiscoveryPolicy, providers: seq<Provider>, ls: Listings)
    requires |ls.pages| == |providers| && |ls.budgets| == |providers| + 1
    requires AddAll(map[], FirstSignals(q, policy, providers, ls)).Some?
    ensures AreMatches(q, policy, providers, ls, Flat(FindsMade(q, policy, providers, ls)))
  {
    var listed := ByConnection(providers, ls.pages, policy.maxListed);
    if Searches(q, policy, providers, ls) {
      forall m
        ensures m in Flat(FindsMade(q, policy, providers, ls)) <==>
                exists p <- providers :: IsFoundBy(p, SearchedOf(p, listed, policy.maxCandidates), Min(3, q.terms), m)
      {
        AllFindsIff(providers, listed, Min(3, q.terms), policy.maxCandidates, m);
      }
    }
  }

  lemma GatheredAreCandidates(q: Query, policy: DiscoveryPolicy, providers: seq<Provider>, ls: Listings,
                              specific: string -> bool, history: seq<Contribution>, m: map<string, Candidate>)
    requires |ls.pages| == |providers| && |ls.budgets| == |providers| + 1
    requires history == AllSignals(q, policy, providers, ls, specific) && AddAll(map[], history) == Some(m)
    requires AddAll(map[], FirstSignals(q, policy, providers, ls)).Some?
    ensures AreCandidates(q, policy, providers, ls, specific, m)
  {
    var listed := ByConnection(providers, ls.pages, policy.maxListed);
    AddAllSummarises(history, m);
    FindsAreMatches(q, policy, providers, ls);
    ByConnectionKeepsLast(providers, ls.pages, policy.maxListed);
    AllMetadataIsOfAllListed(providers, listed);
    Scores.CandidatesAreExplained(m, q.mapped, q.remembered, EverythingListed(policy, providers, ls),
                                  FindsMade(q, policy, providers, ls), specific, history);
    forall k | k in m ensures RepoRefs.Key(m[k].ref) == k { assert SumsUp(m[k], k, history); }
  }

  /** `callsReported` is `workspace_calls_made`. */
  datatype Result = Result(candidates: seq<Candidate>, selected: seq<RepoRefs.RepoRef>, degraded: bool,
                           callsReported: nat)
}
