/** When the calls of a discovery stay within `max_workspace_calls`, for every provider. */
module CallBudget {
  import opened Wrappers
  import opened Control
  import RepoRefs
  import Contributions
  import Candidates
  import opened Providers
  import Signals
  import opened Discovery

  /** Whatever the case, the providers and the expiry of cached listings, a discovery that starts
      with this cache makes no more calls than the policy allows. */
  ghost predicate StaysWithin(policy: DiscoveryPolicy, terms: nat, cache: Cache) {
    forall q: Query, providers: seq<Provider>, expired: set<nat>, ls: Listings ::
      q.terms == terms && AreListings(providers, ls, expired, policy.maxListed)
      && ls.budgets[0] == policy.maxCalls && ls.caches[0] == cache
      ==> CallsMade(q, policy, providers, ls) <= policy.maxCalls
  }

  predicate NeverSearches(policy: DiscoveryPolicy, terms: nat) {
    !policy.codeSearchEnabled || terms == 0
  }

  /** The budget only falls. */
  lemma {:induction false} BudgetFalls(providers: seq<Provider>, ls: Listings, expired: set<nat>, maxListed: nat,
                                       i: nat)
    requires AreListings(providers, ls, expired, maxListed) && ls.budgets[0] >= 0 && i <= |providers|
    ensures 0 <= ls.budgets[i] <= ls.budgets[0] && (i > 0 ==> ls.budgets[i] <= ls.budgets[1])
  {
    if i > 0 {
      BudgetFalls(providers, ls, expired, maxListed, i - 1);
      assert ListsAt(providers, ls, i - 1, expired, maxListed);
    }
  }

  /** The first listing without a cached page uses up a budget of one. */
  lemma FirstListingIsCharged(providers: seq<Provider>, ls: Listings, expired: set<nat>, maxListed: nat)
    requires AreListings(providers, ls, expired, maxListed) && providers != [] && maxListed >= 1
    requires ls.budgets[0] == 1 && ls.caches[0] == map[]
    ensures ls.budgets[1] == 0
  {
    assert ListsAt(providers, ls, 0, expired, maxListed);
    assert ListingTakes(providers[0], 1 - ls.budgets[1], 1, maxListed);
    assert GoesOn(providers[0], 0, maxListed);
  }

  lemma SmallBudgetIsKept(policy: DiscoveryPolicy, terms: nat, q: Query, providers: seq<Provider>, expired: set<nat>,
                          ls: Listings)
    requires AreListings(providers, ls, expired, policy.maxListed) && ls.budgets[0] == policy.maxCalls
    requires policy.maxListed >= 1 && q.terms == terms
    requires NeverSearches(policy, terms) || policy.maxCalls == 0 || (policy.maxCalls == 1 && ls.caches[0] == map[])
    ensures CallsMade(q, policy, providers, ls) <= policy.maxCalls
  {
    var n := |providers|;
    BudgetFalls(providers, ls, expired, policy.maxListed, n);
    if Searches(q, policy, providers, ls) && n > 0 {
      FirstListingIsCharged(providers, ls, expired, policy.maxListed);
    }
  }

  // ---------- A provider that gets more calls than the budget ----------

  function Repository(): Descriptor {
    Descriptor(RepoRefs.RepoRef("github", "w", "r"), 0, false, false, false)
  }

  function LastPage(): ListReply {
    ListReply([Repository()], "", SUCCEEDED)
  }

  /** It lists `n` empty pages before one with a single repository, and asks for a fan-out. */
  function Slow(n: nat): Provider {
    Provider("c", seq(n, _ => ListReply([], "more", SUCCEEDED)), LastPage(), [SearchReply([], PARTIAL, true)], map[])
  }

  lemma {:induction false} NothingListedYet(n: nat, k: nat)
    requires k <= n
    ensures Listed(Slow(n), k) == []
  {
    if k > 0 { NothingListedYet(n, k - 1); }
  }

  lemma SlowListingTakes(n: nat, maxListed: nat)
    requires maxListed >= 1
    ensures ListingTakes(Slow(n), n + 1, n + 2, maxListed)
    ensures ListingAfter(Slow(n), n + 1, maxListed) == Listing([Repository()], SUCCEEDED)
  {
    var p := Slow(n);
    forall k | 0 <= k < n + 1 ensures GoesOn(p, k, maxListed) { NothingListedYet(n, k); }
    NothingListedYet(n, n);
    assert p.ListReplyAt(n) == LastPage();
    assert Listed(p, n + 1) == [Repository()];
  }

  /** One term costs two calls: the workspace's and the repository's. */
  lemma SlowSearchCosts(n: nat, maxCandidates: nat, terms: nat)
    requires terms >= 1 && maxCandidates >= 1
    ensures SearchCalls(Slow(n), Min(maxCandidates, 1), terms, 0, 0) >= 2
  {
    var p := Slow(n);
    assert FansOut(p.SearchReplyAt(0)) && TermCalls(p, 1, 0) == 2;
  }

  /** With that repository listed and budget left, the search takes place. */
  lemma ExceedsWhenListed(policy: DiscoveryPolicy, terms: nat, n: nat, ls: Listings)
    requires policy.codeSearchEnabled && terms >= 1 && policy.maxListed >= 1 && policy.maxCandidates >= 1
    requires |ls.budgets| == 2 && ls.budgets[1] >= 1 && ls.pages == [Listing([Repository()], SUCCEEDED)]
    ensures CallsMade(Query([], [], terms), policy, [Slow(n)], ls) >= ls.budgets[0] - ls.budgets[1] + 2
  {
    var q, ps := Query([], [], terms), [Slow(n)];
    var listed := ByConnection(ps, ls.pages, policy.maxListed);
    assert ps[..0] == [] && ls.pages[..0] == [];
    assert ListedBy(ps[0], listed) == [Repository()];
    var first := FirstSignals(q, policy, ps, ls);
    assert Signals.AllMetadata(ps, listed) == Signals.MetadataOf([Repository()]);
    assert [Repository()][..0] == [];
    assert first == [Signals.MetadataContribution(Repository())];
    OneContributionSucceeds(Signals.MetadataContribution(Repository()));
    SlowSearchCosts(n, policy.maxCandidates, Min(3, terms));
    assert AllSearchCalls(ps, listed, Min(3, terms), policy.maxCandidates)
        == SearchCalls(ps[0], Min(policy.maxCandidates, 1), Min(3, terms), 0, 0);
  }

  lemma OneContributionSucceeds(c: Contributions.Contribution)
    requires c.score >= 0.0
    ensures Candidates.AddAll(map[], [c]).Some?
  {
    assert [c][..0] == [];
  }

  lemma ColdCacheExceeds(policy: DiscoveryPolicy, terms: nat)
    requires !NeverSearches(policy, terms) && policy.maxListed >= 1 && policy.maxCandidates >= 1 && policy.maxCalls >= 2
    ensures !StaysWithin(policy, terms, map[])
  {
    var n, page := policy.maxCalls - 2, Listing([Repository()], SUCCEEDED);
    var p := Slow(n);
    var ls := Listings([page], [policy.maxCalls, 1], [map[], map["c" := page.repositories]]);
    SlowListingTakes(n, policy.maxListed);
    assert IsListing(p, page, policy.maxCalls, 1, map[], ls.caches[1], false, policy.maxListed);
    assert ListsAt([p], ls, 0, {}, policy.maxListed);
    ExceedsWhenListed(policy, terms, n, ls);
    assert CallsMade(Query([], [], terms), policy, [p], ls) > policy.maxCalls;
    assert AreListings([p], ls, {}, policy.maxListed);
  }

  lemma WarmCacheExceeds(policy: DiscoveryPolicy, terms: nat) returns (cache: Cache)
    requires !NeverSearches(policy, terms) && policy.maxListed >= 1 && policy.maxCandidates >= 1 && policy.maxCalls == 1
    ensures !StaysWithin(policy, terms, cache)
  {
    var page := Listing([Repository()], SUCCEEDED);
    cache := map["c" := page.repositories];
    var ls := Listings([page], [1, 1], [cache, cache]);
    assert ListsAt([Slow(0)], ls, 0, {}, policy.maxListed);
    ExceedsWhenListed(policy, terms, 0, ls);
    assert CallsMade(Query([], [], terms), policy, [Slow(0)], ls) > policy.maxCalls;
    assert AreListings([Slow(0)], ls, {}, policy.maxListed);
  }

  /** From an empty cache every discovery stays within its budget exactly when it never searches
      code, or when the first listing alone uses the budget up. */
  lemma StaysWithinIff(policy: DiscoveryPolicy, terms: nat)
    requires policy.maxListed >= 1 && policy.maxCandidates >= 1
    ensures StaysWithin(policy, terms, map[]) <==> NeverSearches(policy, terms) || policy.maxCalls <= 1
  {
    if NeverSearches(policy, terms) || policy.maxCalls <= 1 {
      forall q: Query, providers: seq<Provider>, expired: set<nat>, ls: Listings
        | q.terms == terms && AreListings(providers, ls, expired, policy.maxListed)
          && ls.budgets[0] == policy.maxCalls && ls.caches[0] == map[]
        ensures CallsMade(q, policy, providers, ls) <= policy.maxCalls
      {
        SmallBudgetIsKept(policy, terms, q, providers, expired, ls);
      }
    } else {
      ColdCacheExceeds(policy, terms);
    }
  }

  /** Whatever is cached, it does exactly when it never searches code or may make no call at all. */
  lemma StaysWithinFromAnyCacheIff(policy: DiscoveryPolicy, terms: nat)
    requires policy.maxListed >= 1 && policy.maxCandidates >= 1
    ensures (forall cache :: StaysWithin(policy, terms, cache)) <==>
      NeverSearches(policy, terms) || policy.maxCalls == 0
  {
    if NeverSearches(policy, terms) || policy.maxCalls == 0 {
      forall cache ensures StaysWithin(policy, terms, cache) {
        forall q: Query, providers: seq<Provider>, expired: set<nat>, ls: Listings
          | q.terms == terms && AreListings(providers, ls, expired, policy.maxListed)
            && ls.budgets[0] == policy.maxCalls && ls.caches[0] == cache
          ensures CallsMade(q, policy, providers, ls) <= policy.maxCalls
        {
          SmallBudgetIsKept(policy, terms, q, providers, expired, ls);
        }
      }
    } else if policy.maxCalls >= 2 {
      ColdCacheExceeds(policy, terms);
    } else {
      var cache := WarmCacheExceeds(policy, terms);
    }
  }

  // ---------- What a discovery reports ----------

  /** Connections are named once. */
  ghost predicate Distinct(providers: seq<Provider>) {
    forall i, j :: 0 <= i < j < |providers| ==> providers[i].connection != providers[j].connection
  }

  /** Nothing is cached for a provider before its own listing. */
  lemma {:induction false} CacheIsOfEarlier(providers: seq<Provider>, ls: Listings, expired: set<nat>, maxListed: nat,
                                            i: nat, c: string)
    requires AreListings(providers, ls, expired, maxListed) && ls.caches[0] == map[] && i <= |providers|
    requires c in ls.caches[i]
    ensures exists j :: 0 <= j < i && providers[j].connection == c
  {
    if i > 0 {
      assert ListsAt(providers, ls, i - 1, expired, maxListed);
      if c != providers[i - 1].connection { CacheIsOfEarlier(providers, ls, expired, maxListed, i - 1, c); }
    }
  }

  /** With budget left over, a listing that no cache answers takes one call or more, and one exactly
      when the first reply ends it. */
  lemma ListingCosts(providers: seq<Provider>, ls: Listings, expired: set<nat>, maxListed: nat, i: nat)
    requires AreListings(providers, ls, expired, maxListed) && Distinct(providers) && ls.caches[0] == map[]
    requires i < |providers| && maxListed >= 1 && ls.budgets[i + 1] > 0
    ensures
      var spent := ls.budgets[i] - ls.budgets[i + 1];
      spent >= 1 && (spent == 1 <==> !GoesOn(providers[i], 1, maxListed))
  {
    var p := providers[i];
    if p.connection in ls.caches[i] { CacheIsOfEarlier(providers, ls, expired, maxListed, i, p.connection); }
    assert ListsAt(providers, ls, i, expired, maxListed);
    assert ListingTakes(p, ls.budgets[i] - ls.budgets[i + 1], ls.budgets[i], maxListed);
    assert GoesOn(p, 0, maxListed);
  }

  ghost predicate OnePageEach(providers: seq<Provider>, n: nat, maxListed: nat)
    requires n <= |providers|
  {
    forall i :: 0 <= i < n ==> !GoesOn(providers[i], 1, maxListed)
  }

  lemma {:induction false} ListingsCost(providers: seq<Provider>, ls: Listings, expired: set<nat>, maxListed: nat,
                                        n: nat)
    requires AreListings(providers, ls, expired, maxListed) && Distinct(providers) && ls.caches[0] == map[]
    requires n <= |providers| && maxListed >= 1 && ls.budgets[n] > 0
    ensures
      var spent := ls.budgets[0] - ls.budgets[n];
      spent >= n && (spent == n <==> OnePageEach(providers, n, maxListed))
  {
    if n > 0 {
      ListingCosts(providers, ls, expired, maxListed, n - 1);
      ListingsCost(providers, ls, expired, maxListed, n - 1);
      assert OnePageEach(providers, n, maxListed) <==>
        OnePageEach(providers, n - 1, maxListed) && !GoesOn(providers[n - 1], 1, maxListed);
    }
  }

  /** The reported number of calls is never more than the calls made - with no cached page, and budget
      left over - and it is that number exactly when every listing ends with its first page. */
  lemma ReportIsExactIff(q: Query, policy: DiscoveryPolicy, providers: seq<Provider>, expired: set<nat>, ls: Listings)
    requires AreListings(providers, ls, expired, policy.maxListed) && Distinct(providers) && ls.caches[0] == map[]
    requires policy.maxListed >= 1 && ls.budgets[|providers|] > 0
    ensures CallsReported(q, policy, providers, ls) <= CallsMade(q, policy, providers, ls)
    ensures CallsReported(q, policy, providers, ls) == CallsMade(q, policy, providers, ls) <==>
            OnePageEach(providers, |providers|, policy.maxListed)
  {
    ListingsCost(providers, ls, expired, policy.maxListed, |providers|);
  }

  /** A cached page is reported as a call that was not made. */
  lemma CachedPageIsReported(q: Query, policy: DiscoveryPolicy, p: Provider, page: seq<Descriptor>)
    returns (ls: Listings)
    requires policy.maxCalls >= 1
    ensures AreListings([p], ls, {}, policy.maxListed) && ls.budgets[0] == policy.maxCalls
    ensures CallsReported(q, policy, [p], ls) == CallsMade(q, policy, [p], ls) + 1
  {
    var cache := map[p.connection := page];
    ls := Listings([Listing(page, SUCCEEDED)], [policy.maxCalls, policy.maxCalls], [cache, cache]);
    assert ListsAt([p], ls, 0, {}, policy.maxListed);
  }
}
