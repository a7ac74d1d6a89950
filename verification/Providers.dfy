/** Workspace providers as the discovery service sees them: listings page by page, code searches. */
module Providers {
  import opened Wrappers
  import opened Control
  import RepoRefs
  import Contributions
  import CodeHits

  /** A listed repository with what the metadata signal reads off it. */
  datatype Descriptor = Descriptor(ref: RepoRefs.RepoRef, overlap: nat, languageMatches: bool, recent: bool,
                                   archived: bool)

  /** `cursor == ""` ends the listing, as an absent cursor does. */
  datatype ListReply = ListReply(repositories: seq<Descriptor>, cursor: string, status: OperationStatus)

  datatype SearchReply = SearchReply(matches: seq<CodeHits.CodeMatch>, status: OperationStatus, fanOutRequired: bool)

  /** A provider may answer anything: `listing` has the replies to its listing calls and `later`
      the reply to any beyond those; `searching` has the replies by term; `searchingIn` what a search
      of the `i`-th listed repository for the `t`-th term finds. */
  datatype Provider = Provider(connection: string, listing: seq<ListReply>, later: ListReply,
                               searching: seq<SearchReply>,
                               searchingIn: map<(nat, nat), seq<CodeHits.CodeMatch>>)
  {
    function ListReplyAt(n: nat): ListReply {
      if n < |listing| then listing[n] else later
    }

    function SearchReplyAt(t: nat): SearchReply {
      if t < |searching| then searching[t] else SearchReply([], FAILED, false)
    }

    function SearchIn(i: nat, t: nat): seq<CodeHits.CodeMatch> {
      if (i, t) in searchingIn then searchingIn[(i, t)] else []
    }

    /** What searching the first `n` listed repositories finds. */
    function FanOut(t: nat, n: nat): (r: seq<seq<CodeHits.CodeMatch>>)
      ensures |r| == n
    {
      seq(n, i requires 0 <= i < n => SearchIn(i, t))
    }
  }

  // ---------- Listing ----------

  /** Everything the first `n` listing calls return. */
  function Listed(p: Provider, n: nat): seq<Descriptor> {
    if n == 0 then [] else Listed(p, n - 1) + p.ListReplyAt(n - 1).repositories
  }

  /** After `n` successful calls there is more to ask for. */
  ghost predicate GoesOn(p: Provider, n: nat, maxListed: nat) {
    && |Listed(p, n)| < maxListed
    && (n > 0 ==> p.ListReplyAt(n - 1).status == SUCCEEDED && p.ListReplyAt(n - 1).cursor != "")
  }

  /** `n` is how many calls listing makes: it goes on as long as there is more to ask for and
      budget to ask. */
  ghost predicate ListingTakes(p: Provider, n: nat, budget: nat, maxListed: nat) {
    && n <= budget
    && (forall k :: 0 <= k < n ==> GoesOn(p, k, maxListed))
    && (GoesOn(p, n, maxListed) ==> n == budget)
  }

  lemma ListingTakesOneNumber(p: Provider, n: nat, m: nat, budget: nat, maxListed: nat)
    requires ListingTakes(p, n, budget, maxListed) && ListingTakes(p, m, budget, maxListed)
    ensures n == m
  {
    assert n < m ==> GoesOn(p, n, maxListed);
    assert m < n ==> GoesOn(p, m, maxListed);
  }

  /** `n` calls are made: each with fewer repositories than the limit listed so far and, after the first, with the
      cursor of a successful reply; and no more because the budget is spent, the limit is reached, or the last
      reply failed or had no cursor. */
  ghost predicate Asks(p: Provider, n: nat, budget: nat, maxListed: nat) {
    && n <= budget
    && (forall k: nat :: k < n ==> |Listed(p, k)| < maxListed)
    && (forall k: nat :: k + 1 < n ==> p.ListReplyAt(k).status == SUCCEEDED && p.ListReplyAt(k).cursor != "")
    && (|| n == budget
        || |Listed(p, n)| >= maxListed
        || (n > 0 && (p.ListReplyAt(n - 1).status != SUCCEEDED || p.ListReplyAt(n - 1).cursor == "")))
  }

  lemma TakesWhatItAsks(p: Provider, n: nat, budget: nat, maxListed: nat)
    ensures ListingTakes(p, n, budget, maxListed) <==> Asks(p, n, budget, maxListed)
  {
    if ListingTakes(p, n, budget, maxListed) {
      forall k: nat | k < n ensures |Listed(p, k)| < maxListed { assert GoesOn(p, k, maxListed); }
      forall k: nat | k + 1 < n
        ensures p.ListReplyAt(k).status == SUCCEEDED && p.ListReplyAt(k).cursor != ""
      {
        assert GoesOn(p, k + 1, maxListed);
      }
    }
    if Asks(p, n, budget, maxListed) {
      forall k | 0 <= k < n ensures GoesOn(p, k, maxListed) { assert k > 0 ==> (k - 1) + 1 < n; }
    }
  }

  /** A listing, for whoever reads it: the repositories and the status of the last receipt. */
  datatype Listing = Listing(repositories: seq<Descriptor>, status: OperationStatus)

  /** Listed repositories by connection. */
  type Cache = map<string, seq<Descriptor>>

  /** What one listing returns and leaves. A cached page that has not expired is returned without a
      call; otherwise calls are made and charged as long as there is more to ask for, and a
      successful listing is cached. */
  ghost predicate IsListing(p: Provider, page: Listing, before: int, after: int, cache: Cache, cache': Cache,
                            expired: bool, maxListed: nat)
  {
    if p.connection in cache && !expired then
      page == Listing(cache[p.connection], SUCCEEDED) && after == before && cache' == cache
    else
      && 0 <= after <= before && ListingTakes(p, before - after, before, maxListed)
      && page == ListingAfter(p, before - after, maxListed)
      && cache' == if page.status == SUCCEEDED then cache[p.connection := page.repositories] else cache - {p.connection}
  }

  /** The page after `n` calls: the first repositories listed; what there was before a failed call. */
  function ListingAfter(p: Provider, n: nat, maxListed: nat): Listing {
    if n == 0 then Listing([], BLOCKED)
    else if p.ListReplyAt(n - 1).status != SUCCEEDED then Listing(Listed(p, n - 1), p.ListReplyAt(n - 1).status)
    else Listing(Listed(p, n)[..Min(maxListed, |Listed(p, n)|)], SUCCEEDED)
  }

  /** A page fetched by `n` calls: BLOCKED without one; what came before a failed call, with its status; otherwise
      the first repositories, up to the limit. */
  ghost predicate IsPage(p: Provider, n: nat, maxListed: nat, page: Listing) {
    if n == 0 then page.repositories == [] && page.status == BLOCKED
    else if p.ListReplyAt(n - 1).status != SUCCEEDED then
      page.repositories == Listed(p, n - 1) && page.status == p.ListReplyAt(n - 1).status
    else
      && page.status == SUCCEEDED && page.repositories <= Listed(p, n)
      && |page.repositories| == if |Listed(p, n)| > maxListed then maxListed else |Listed(p, n)|
  }

  /** The listings of several providers: the page of each, and budget and cache before each and at the end. */
  datatype Listings = Listings(pages: seq<Listing>, budgets: seq<int>, caches: seq<Cache>)

  ghost predicate AreListings(providers: seq<Provider>, ls: Listings, expired: set<nat>, maxListed: nat) {
    && |ls.pages| == |providers| && |ls.budgets| == |providers| + 1 && |ls.caches| == |providers| + 1
    && forall i :: 0 <= i < |providers| ==> ListsAt(providers, ls, i, expired, maxListed)
  }

  ghost predicate ListsAt(providers: seq<Provider>, ls: Listings, i: nat, expired: set<nat>, maxListed: nat)
    requires i < |providers| == |ls.pages| && |ls.budgets| == |ls.caches| == |providers| + 1
  {
    IsListing(providers[i], ls.pages[i], ls.budgets[i], ls.budgets[i + 1], ls.caches[i], ls.caches[i + 1],
              i in expired, maxListed)
  }

  /** Listing starts from this budget and cache, and leaves those. */
  ghost predicate Spans(ls: Listings, budget: int, cache: Cache, budget': int, cache': Cache) {
    && |ls.budgets| > 0 && |ls.caches| > 0
    && ls.budgets[0] == budget && ls.caches[0] == cache
    && ls.budgets[|ls.budgets| - 1] == budget' && ls.caches[|ls.caches| - 1] == cache'
  }

  ghost predicate SomeListingFailed(ls: Listings) {
    exists i :: 0 <= i < |ls.pages| && ls.pages[i].status != SUCCEEDED
  }

  function Add(ls: Listings, page: Listing, budget: int, cache: Cache): Listings {
    Listings(ls.pages + [page], ls.budgets + [budget], ls.caches + [cache])
  }

  lemma ListingsOneMore(providers: seq<Provider>, ls: Listings, p: Provider, page: Listing, budget: int, cache: Cache,
                        expired: set<nat>, maxListed: nat)
    requires AreListings(providers, ls, expired, maxListed)
    requires
      var n := |providers|;
      IsListing(p, page, ls.budgets[n], budget, ls.caches[n], cache, n in expired, maxListed)
    ensures AreListings(providers + [p], Add(ls, page, budget, cache), expired, maxListed)
  {
    var n, ps, ls' := |providers|, providers + [p], Add(ls, page, budget, cache);
    forall i | 0 <= i < |ps| ensures ListsAt(ps, ls', i, expired, maxListed) {
      if i < n { assert ListsAt(providers, ls, i, expired, maxListed); }
    }
  }

  /** Of the pages of a connection, the last that was listed successfully. */
  ghost predicate IsLastListed(providers: seq<Provider>, pages: seq<Listing>, c: string, i: nat)
    requires |pages| == |providers| && i < |providers|
  {
    && providers[i].connection == c && pages[i].status == SUCCEEDED
    && forall j :: i < j < |providers| && providers[j].connection == c ==> pages[j].status != SUCCEEDED
  }

  /** Of each connection the beginning of its last page, up to the limit. */
  ghost predicate KeepsLastListed(providers: seq<Provider>, pages: seq<Listing>, maxListed: nat, listed: Cache)
    requires |pages| == |providers|
  {
    && (forall c <- listed :: exists i :: 0 <= i < |providers| && IsLastListed(providers, pages, c, i))
    && forall c, i :: 0 <= i < |providers| && IsLastListed(providers, pages, c, i) ==>
        && c in listed && listed[c] <= pages[i].repositories
        && |listed[c]| == if |pages[i].repositories| > maxListed then maxListed else |pages[i].repositories|
  }

  lemma {:induction false} ByConnectionKeepsLast(providers: seq<Provider>, pages: seq<Listing>, maxListed: nat)
    requires |pages| == |providers|
    ensures KeepsLastListed(providers, pages, maxListed, ByConnection(providers, pages, maxListed))
  {
    if providers != [] {
      var n := |providers| - 1;
      ByConnectionKeepsLast(providers[..n], pages[..n], maxListed);
      var earlier := ByConnection(providers[..n], pages[..n], maxListed);
      if pages[n].status == SUCCEEDED {
        LastListedReplaces(providers, pages, n, maxListed, earlier);
      } else {
        FailedListingKeeps(providers, pages, n, maxListed, earlier);
      }
    }
  }

  lemma FailedListingKeeps(providers: seq<Provider>, pages: seq<Listing>, n: nat, maxListed: nat, earlier: Cache)
    requires |pages| == |providers| == n + 1 && pages[n].status != SUCCEEDED
    requires KeepsLastListed(providers[..n], pages[..n], maxListed, earlier)
    ensures KeepsLastListed(providers, pages, maxListed, earlier)
  {
    forall c, i | 0 <= i < n
      ensures IsLastListed(providers, pages, c, i) <==> IsLastListed(providers[..n], pages[..n], c, i)
    {
      LastListedEarlier(providers, pages, n, c, i);
    }
  }

  lemma LastListedReplaces(providers: seq<Provider>, pages: seq<Listing>, n: nat, maxListed: nat, earlier: Cache)
    requires |pages| == |providers| == n + 1 && pages[n].status == SUCCEEDED
    requires KeepsLastListed(providers[..n], pages[..n], maxListed, earlier)
    ensures
      var page := pages[n].repositories;
      KeepsLastListed(providers, pages, maxListed,
                      earlier[providers[n].connection := page[..Min(maxListed, |page|)]])
  {
    forall c, i | 0 <= i < n && c != providers[n].connection
      ensures IsLastListed(providers, pages, c, i) <==> IsLastListed(providers[..n], pages[..n], c, i)
    {
      LastListedEarlier(providers, pages, n, c, i);
    }
    assert IsLastListed(providers, pages, providers[n].connection, n);
  }

  lemma LastListedEarlier(providers: seq<Provider>, pages: seq<Listing>, n: nat, c: string, i: nat)
    requires |pages| == |providers| == n + 1 && i < n && (c != providers[n].connection || pages[n].status != SUCCEEDED)
    ensures IsLastListed(providers, pages, c, i) <==> IsLastListed(providers[..n], pages[..n], c, i)
  {
    assert forall j :: 0 <= j < n ==> providers[..n][j] == providers[j] && pages[..n][j] == pages[j];
  }

  /** The last successful page of each connection, cut to the limit. */
  function ByConnection(providers: seq<Provider>, pages: seq<Listing>, maxListed: nat): Cache
    requires |pages| == |providers|
  {
    if providers == [] then map[] else
      var n := |providers| - 1;
      var earlier := ByConnection(providers[..n], pages[..n], maxListed);
      if pages[n].status != SUCCEEDED then earlier
      else earlier[providers[n].connection := pages[n].repositories[..Min(maxListed, |pages[n].repositories|)]]
  }

  lemma ByConnectionOneMore(providers: seq<Provider>, pages: seq<Listing>, p: Provider, page: Listing, maxListed: nat)
    requires |pages| == |providers|
    ensures ByConnection(providers + [p], pages + [page], maxListed) ==
      if page.status == SUCCEEDED
      then ByConnection(providers, pages, maxListed)
             [p.connection := page.repositories[..Min(maxListed, |page.repositories|)]]
      else ByConnection(providers, pages, maxListed)
  {
    assert (providers + [p])[..|providers|] == providers && (pages + [page])[..|pages|] == pages;
  }

  lemma {:induction false} ListedIsShort(providers: seq<Provider>, pages: seq<Listing>, maxListed: nat)
    requires |pages| == |providers|
    ensures forall c <- ByConnection(providers, pages, maxListed) ::
      |ByConnection(providers, pages, maxListed)[c]| <= maxListed
  {
    if providers != [] {
      var n := |providers| - 1;
      ListedIsShort(providers[..n], pages[..n], maxListed);
    }
  }

  function ListedBy(p: Provider, listed: Cache): seq<Descriptor> {
    if p.connection in listed then listed[p.connection] else []
  }

  // ---------- Code search ----------

  /** The calls and the matches of the search for one term: the workspace's, or those of the listed
      repositories when the provider asks for it. */
  function TermCalls(p: Provider, listed: nat, t: nat): nat {
    if FansOut(p.SearchReplyAt(t)) then 1 + listed else 1
  }

  function TermFinds(p: Provider, listed: nat, t: nat): seq<seq<CodeHits.CodeMatch>> {
    if FansOut(p.SearchReplyAt(t)) then p.FanOut(t, listed) else [p.SearchReplyAt(t).matches]
  }

  /** How many search calls one provider costs, from term `t` on, when `hits` were found before: a
      term with hits ends the search. */
  function SearchCalls(p: Provider, listed: nat, terms: nat, t: nat, hits: nat): nat
    decreases terms - t
  {
    if t >= terms || hits > 0 then 0
    else TermCalls(p, listed, t) + SearchCalls(p, listed, terms, t + 1, HitsFrom(TermFinds(p, listed, t), 0))
  }

  predicate FansOut(r: SearchReply) {
    r.status == PARTIAL && r.fanOutRequired
  }

  // ---------- What a search comes to ----------

  /** Searching for the term finds nothing, over the workspace or in any of the first repositories listed. */
  ghost predicate FindsNothing(p: Provider, listed: nat, t: nat) {
    var r := p.SearchReplyAt(t);
    if r.status == PARTIAL && r.fanOutRequired then forall i: nat :: i < listed ==> p.SearchIn(i, t) == []
    else r.matches == []
  }

  /** Searching for the term finds this match. */
  ghost predicate FindsMatch(p: Provider, listed: nat, t: nat, m: CodeHits.CodeMatch) {
    var r := p.SearchReplyAt(t);
    if r.status == PARTIAL && r.fanOutRequired then exists i: nat :: i < listed && m in p.SearchIn(i, t)
    else m in r.matches
  }

  /** The first `n` terms are searched for: up to the first that finds something, or all of them. */
  ghost predicate SearchesFor(p: Provider, listed: nat, terms: nat, n: nat) {
    && n <= terms && (forall t: nat :: t + 1 < n ==> FindsNothing(p, listed, t))
    && (n < terms ==> n > 0 && !FindsNothing(p, listed, n - 1))
  }

  /** The terms from `t` on, among the first `n`, for which the provider asks to search repository by repository. */
  function FannedOut(p: Provider, t: nat, n: nat): set<nat> {
    set u: nat | t <= u < n && p.SearchReplyAt(u).status == PARTIAL && p.SearchReplyAt(u).fanOutRequired
  }

  lemma {:induction false} NoHitsIff(lists: seq<seq<CodeHits.CodeMatch>>, i: nat)
    requires i <= |lists|
    ensures HitsFrom(lists, i) == 0 <==> forall k :: i <= k < |lists| ==> lists[k] == []
    decreases |lists| - i
  {
    if i < |lists| { NoHitsIff(lists, i + 1); }
  }

  lemma FindsNothingIff(p: Provider, listed: nat, t: nat)
    ensures HitsFrom(TermFinds(p, listed, t), 0) == 0 <==> FindsNothing(p, listed, t)
  {
    var finds := TermFinds(p, listed, t);
    NoHitsIff(finds, 0);
    if FansOut(p.SearchReplyAt(t)) {
      assert forall i: nat :: i < listed ==> finds[i] == p.SearchIn(i, t);
    } else {
      assert finds[0] == p.SearchReplyAt(t).matches;
    }
  }

  /** One number of terms is searched for, and the calls are one for each of them, and one more for each repository
      and each of them that is searched for repository by repository. */
  lemma {:induction false} SearchCallsFrom(p: Provider, listed: nat, terms: nat, t: nat) returns (n: nat)
    requires t <= terms
    ensures t <= n <= terms && (t < terms ==> t < n)
    ensures forall u: nat :: t <= u && u + 1 < n ==> FindsNothing(p, listed, u)
    ensures n < terms ==> n > t && !FindsNothing(p, listed, n - 1)
    ensures SearchCalls(p, listed, terms, t, 0) == n - t + listed * |FannedOut(p, t, n)|
    decreases terms - t
  {
    if t == terms {
      n := t;
      assert FannedOut(p, t, n) == {};
    } else {
      FindsNothingIff(p, listed, t);
      if FindsNothing(p, listed, t) {
        n := SearchCallsFrom(p, listed, terms, t + 1);
      } else {
        n := t + 1;
        assert FannedOut(p, t + 1, n) == {};
      }
      FannedOutStep(p, listed, t, n);
    }
  }

  lemma FannedOutStep(p: Provider, listed: nat, t: nat, n: nat)
    requires t < n
    ensures listed * |FannedOut(p, t, n)| == listed * |FannedOut(p, t + 1, n)| + TermCalls(p, listed, t) - 1
  {
    var later := FannedOut(p, t + 1, n);
    assert FannedOut(p, t, n) == later + if FansOut(p.SearchReplyAt(t)) then {t} else {};
    OneMoreTime(|later|, listed);
  }

  /** That many calls: one for each term searched for, and one more for each repository and each of the terms that
      is searched for repository by repository. */
  ghost predicate AreSearchCalls(p: Provider, listed: nat, terms: nat, calls: int) {
    exists n: nat :: SearchesFor(p, listed, terms, n) && calls == n + listed * |FannedOut(p, 0, n)|
  }

  lemma SearchCallsAre(p: Provider, listed: nat, terms: nat)
    ensures AreSearchCalls(p, listed, terms, SearchCalls(p, listed, terms, 0, 0))
  {
    var n := SearchCallsFrom(p, listed, terms, 0);
    assert SearchesFor(p, listed, terms, n);
  }

  lemma SearchesForOneNumber(p: Provider, listed: nat, terms: nat, n: nat, m: nat)
    requires SearchesFor(p, listed, terms, n) && SearchesFor(p, listed, terms, m)
    ensures n == m
  {
  }

  /** How many matches the lists from the `i`-th on have. */
  function HitsFrom(lists: seq<seq<CodeHits.CodeMatch>>, i: nat): nat
    decreases |lists| - i
  {
    if i >= |lists| then 0 else |lists[i]| + HitsFrom(lists, i + 1)
  }

  /** At most three terms, each with at most one call for the workspace and one for each of the
      first `maxCandidates` repositories. */
  lemma {:induction false} SearchCallsAreBounded(p: Provider, listed: nat, maxCandidates: nat, terms: nat, t: nat,
                                                 hits: nat)
    requires listed <= maxCandidates && t <= terms <= 3
    ensures SearchCalls(p, listed, terms, t, hits) <= (terms - t) * (1 + maxCandidates) <= 3 * (1 + maxCandidates)
    decreases terms - t
  {
    if t < terms && hits == 0 {
      SearchCallsAreBounded(p, listed, maxCandidates, terms, t + 1, HitsFrom(TermFinds(p, listed, t), 0));
      OneMoreTime(terms - (t + 1), 1 + maxCandidates);
    }
    AtMostThree(terms - t, 1 + maxCandidates);
  }

  lemma AtMostThree(n: nat, bound: nat)
    requires n <= 3
    ensures n * bound <= 3 * bound
  {
  }

  /** A provider that always asks to fan out and never finds anything. */
  ghost predicate Futile(p: Provider, terms: nat) {
    && (forall t :: 0 <= t < terms ==> FansOut(p.SearchReplyAt(t)))
    && forall i: nat, t: nat :: p.SearchIn(i, t) == []
  }

  /** The bound is reached, whatever is left of the budget: search calls are not charged to it. */
  lemma {:induction false} FutileSearchReachesTheBound(p: Provider, maxCandidates: nat, terms: nat, t: nat)
    requires Futile(p, terms) && t <= terms
    ensures SearchCalls(p, maxCandidates, terms, t, 0) == (terms - t) * (1 + maxCandidates)
    decreases terms - t
  {
    if t < terms {
      assert TermFinds(p, maxCandidates, t) == p.FanOut(t, maxCandidates);
      NoHitsInEmptyLists(p.FanOut(t, maxCandidates), 0);
      FutileSearchReachesTheBound(p, maxCandidates, terms, t + 1);
      OneMoreTime(terms - (t + 1), 1 + maxCandidates);
    }
  }

  lemma {:induction false} NoHitsInEmptyLists(lists: seq<seq<CodeHits.CodeMatch>>, i: nat)
    requires forall k :: 0 <= k < |lists| ==> lists[k] == []
    ensures HitsFrom(lists, i) == 0
    decreases |lists| - i
  {
    if i < |lists| { NoHitsInEmptyLists(lists, i + 1); }
  }

  /** The search calls of all providers. */
  function AllSearchCalls(providers: seq<Provider>, listed: Cache, terms: nat, maxCandidates: nat): nat {
    if providers == [] then 0 else
      var p := providers[|providers| - 1];
      AllSearchCalls(providers[..|providers| - 1], listed, terms, maxCandidates)
      + SearchCalls(p, Min(maxCandidates, |ListedBy(p, listed)|), terms, 0, 0)
  }

  lemma {:induction false} AllSearchCallsAreBounded(providers: seq<Provider>, listed: Cache, terms: nat,
                                                    maxCandidates: nat)
    requires terms <= 3
    ensures AllSearchCalls(providers, listed, terms, maxCandidates) <= |providers| * (3 * (1 + maxCandidates))
  {
    if providers != [] {
      var n := |providers| - 1;
      AllSearchCallsAreBounded(providers[..n], listed, terms, maxCandidates);
      var fanOut := Min(maxCandidates, |ListedBy(providers[n], listed)|);
      SearchCallsAreBounded(providers[n], fanOut, maxCandidates, terms, 0, 0);
      OneMoreTime(n, 3 * (1 + maxCandidates));
    }
  }

  lemma OneMoreTime(n: nat, bound: nat)
    ensures (n + 1) * bound == n * bound + bound
  {
  }

  /** Under the default policy of 24 calls, a provider that lists eight repositories in one page
      and answers every search with a request to fan out gets 28. */
  lemma DefaultBudgetIsExceeded() returns (p: Provider)
    ensures ListingTakes(p, 1, 24, 50) && |Listed(p, 1)| == 8
    ensures 1 + SearchCalls(p, |Listed(p, 1)|, 3, 0, 0) == 28
  {
    var d := Descriptor(RepoRefs.RepoRef("github", "w", "r"), 0, false, false, false);
    var page, ask := ListReply([d, d, d, d, d, d, d, d], "", SUCCEEDED), SearchReply([], PARTIAL, true);
    p := Provider("github:w", [page], page, [ask, ask, ask], map[]);
    assert Listed(p, 0) == [] && Listed(p, 1) == page.repositories;
    assert GoesOn(p, 0, 50) && !GoesOn(p, 1, 50);
    assert forall t :: 0 <= t < 3 ==> p.SearchReplyAt(t) == ask;
    FutileSearchReachesTheBound(p, 8, 3, 0);
  }
}
