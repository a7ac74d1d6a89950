/** Which matches the code searches of a discovery find. */
module CodeSearches {
  import opened Wrappers
  import opened CodeHits
  import opened Providers
  import opened Signals

  /** All matches of all searches. */
  function Flat(lists: seq<seq<CodeMatch>>): seq<CodeMatch> {
    if lists == [] then [] else Flat(lists[..|lists| - 1]) + lists[|lists| - 1]
  }

  lemma FlatHas(lists: seq<seq<CodeMatch>>, last: seq<CodeMatch>, m: CodeMatch)
    ensures m in Flat(lists + [last]) <==> m in Flat(lists) || m in last
  {
    assert (lists + [last])[..|lists|] == lists;
  }

  lemma {:induction false} FlatBoth(a: seq<seq<CodeMatch>>, b: seq<seq<CodeMatch>>, m: CodeMatch)
    ensures m in Flat(a + b) <==> m in Flat(a) || m in Flat(b)
  {
    if b == [] {
      assert a + b == a;
    } else {
      FlatBoth(a, b[..|b| - 1], m);
      assert (a + b)[..|a + b| - 1] == a + b[..|b| - 1];
    }
  }

  lemma {:induction false} FlatIff(lists: seq<seq<CodeMatch>>, m: CodeMatch)
    ensures m in Flat(lists) <==> exists l <- lists :: m in l
  {
    if lists != [] {
      var init, last := lists[..|lists| - 1], lists[|lists| - 1];
      assert lists == init + [last];
      FlatIff(init, m);
      assert forall l :: l in lists <==> l in init || l == last;
    }
  }

  lemma {:induction false} AddFromAppends(before: seq<seq<CodeMatch>>, lists: seq<seq<CodeMatch>>, i: nat)
    requires i <= |lists|
    ensures AddFrom(before, lists, i) == before + lists[i..]
    decreases |lists| - i
  {
    if i < |lists| {
      AddFromAppends(before + [lists[i]], lists, i + 1);
      assert lists[i..] == [lists[i]] + lists[i + 1..];
    }
  }

  lemma TermFindsIff(p: Provider, listed: nat, t: nat, m: CodeMatch)
    ensures m in Flat(TermFinds(p, listed, t)) <==> FindsMatch(p, listed, t, m)
  {
    var finds := TermFinds(p, listed, t);
    FlatIff(finds, m);
    if FansOut(p.SearchReplyAt(t)) {
      assert forall i: nat :: i < listed ==> finds[i] == p.SearchIn(i, t);
    } else {
      assert finds[0] == p.SearchReplyAt(t).matches;
    }
  }

  /** A provider's search adds what is found for the terms that are searched for. */
  lemma {:induction false} SearchFindsIff(before: seq<seq<CodeMatch>>, p: Provider, listed: nat, terms: nat, t: nat,
                                          n: nat, m: CodeMatch)
    requires t <= n <= terms && (t < terms ==> t < n)
    requires forall u: nat :: t <= u && u + 1 < n ==> FindsNothing(p, listed, u)
    requires n < terms ==> n > t && !FindsNothing(p, listed, n - 1)
    ensures m in Flat(SearchFinds(before, p, listed, terms, t, 0)) <==>
            m in Flat(before) || exists u: nat :: t <= u < n && FindsMatch(p, listed, u, m)
    decreases terms - t
  {
    if t < terms {
      var finds := TermFinds(p, listed, t);
      AddFromAppends(before, finds, 0);
      assert finds[0..] == finds;
      FlatBoth(before, finds, m);
      TermFindsIff(p, listed, t, m);
      FindsNothingIff(p, listed, t);
      if FindsNothing(p, listed, t) {
        SearchFindsIff(before + finds, p, listed, terms, t + 1, n, m);
      }
    }
  }

  /** The match is found by searching for the `u`-th of the terms, those before it having found nothing. */
  ghost predicate IsFoundAt(p: Provider, listed: nat, terms: nat, m: CodeMatch, u: nat) {
    u < terms && (forall v: nat :: v < u ==> FindsNothing(p, listed, v)) && FindsMatch(p, listed, u, m)
  }

  ghost predicate IsFoundBy(p: Provider, listed: nat, terms: nat, m: CodeMatch) {
    exists u: nat :: IsFoundAt(p, listed, terms, m, u)
  }

  lemma FoundIffSearched(before: seq<seq<CodeMatch>>, p: Provider, listed: nat, terms: nat, m: CodeMatch)
    ensures m in Flat(SearchFinds(before, p, listed, terms, 0, 0)) <==>
            m in Flat(before) || IsFoundBy(p, listed, terms, m)
  {
    var n := SearchCallsFrom(p, listed, terms, 0);
    SearchFindsIff(before, p, listed, terms, 0, n, m);
    if u: nat :| 0 <= u < n && FindsMatch(p, listed, u, m) {
      assert forall v: nat :: v < u ==> FindsNothing(p, listed, v);
      assert IsFoundAt(p, listed, terms, m, u);
    }
    if u: nat :| IsFoundAt(p, listed, terms, m, u) {
      assert u < n;
    }
  }

  /** How many of a provider's repositories are searched one by one. */
  function SearchedOf(p: Provider, listed: Cache, maxCandidates: nat): nat {
    if p.connection in listed then Min(maxCandidates, |listed[p.connection]|) else 0
  }

  /** The matches found are those of the searches of all providers. */
  lemma {:induction false} AllFindsIff(providers: seq<Provider>, listed: Cache, terms: nat, maxCandidates: nat,
                                       m: CodeMatch)
    ensures m in Flat(AllFinds(providers, listed, terms, maxCandidates)) <==>
            exists p <- providers :: IsFoundBy(p, SearchedOf(p, listed, maxCandidates), terms, m)
  {
    if providers != [] {
      var init, last := providers[..|providers| - 1], providers[|providers| - 1];
      assert providers == init + [last];
      AllFindsIff(init, listed, terms, maxCandidates, m);
      FoundIffSearched(AllFinds(init, listed, terms, maxCandidates), last, SearchedOf(last, listed, maxCandidates),
                       terms, m);
      assert forall p :: p in providers <==> p in init || p == last;
    }
  }
}
