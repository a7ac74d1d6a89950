/** What a candidate's score, confidence and sources come to, counted over what was mapped, remembered,
    listed and matched. */
module Scores {
  import opened Counting
  import opened RepoRefs
  import opened Contributions
  import opened CodeHits
  import opened Candidates
  import opened Providers
  import opened CodeSearches
  import opened Signals

  // ---------- What is counted ----------

  /** The key is `k`, and it parses. */
  function Parsed(k: string): string -> bool {
    key => key == k && RefFromKey(key).Some?
  }

  function WithLanguage(k: string): Descriptor -> bool {
    (d: Descriptor) => Key(d.ref) == k && d.languageMatches
  }

  function Recent(k: string): Descriptor -> bool {
    (d: Descriptor) => Key(d.ref) == k && d.recent
  }

  function Archived(k: string): Descriptor -> bool {
    (d: Descriptor) => Key(d.ref) == k && d.archived
  }

  function MatchedIn(k: string): CodeMatch -> bool {
    (m: CodeMatch) => Key(m.ref) == k
  }

  function SpecificIn(k: string, specific: string -> bool): CodeMatch -> bool {
    (m: CodeMatch) => Key(m.ref) == k && specific(m.path)
  }

  /** How many terms the listings of a repository overlap with, taken together. */
  function Overlaps(k: string, ds: seq<Descriptor>): nat {
    if ds == [] then 0 else
      var last := ds[|ds| - 1];
      Overlaps(k, ds[..|ds| - 1]) + if Key(last.ref) == k then last.overlap else 0
  }

  function KnownPoints(k: string, mapped: seq<string>, remembered: seq<string>): real {
    10.0 * |Where(mapped, Parsed(k))| as real + 8.0 * |Where(remembered, Parsed(k))| as real
  }

  function ListedPoints(k: string, ds: seq<Descriptor>): real {
    Overlaps(k, ds) as real + 1.5 * |Where(ds, WithLanguage(k))| as real + |Where(ds, Recent(k))| as real
    - 2.0 * |Where(ds, Archived(k))| as real
  }

  function MatchedPoints(k: string, matches: seq<CodeMatch>, specific: string -> bool): real {
    3.0 * |Where(matches, MatchedIn(k))| as real + 2.0 * |Where(matches, SpecificIn(k, specific))| as real
  }

  /** A listing that is worth more than nothing. */
  predicate ScoresPositive(d: Descriptor) {
    if !d.archived then d.overlap > 0 || d.languageMatches || d.recent
    else d.overlap >= 3 || (d.overlap == 2 && (d.languageMatches || d.recent)) || (d.overlap == 1 && d.languageMatches)
         || (d.languageMatches && d.recent)
  }

  /** Ten points for each time the key is mapped, eight for each time it is remembered; of each listing one
      for every term it overlaps with, one and a half for the language and one for recency, two less when
      archived; three for each match and two more for each specific one. */
  ghost predicate AddsUp(c: Candidate, k: string, mapped: seq<string>, remembered: seq<string>, ds: seq<Descriptor>,
                         matches: seq<CodeMatch>, specific: string -> bool) {
    c.score == KnownPoints(k, mapped, remembered) + ListedPoints(k, ds) + MatchedPoints(k, matches, specific)
  }

  /** High exactly for a known key or a specific match, low exactly with no match and no listing worth anything
      besides; and where it was found. */
  ghost predicate IsRated(c: Candidate, k: string, mapped: seq<string>, remembered: seq<string>, ds: seq<Descriptor>,
                          matches: seq<CodeMatch>, specific: string -> bool) {
    var known := Finds(mapped, k) || Finds(remembered, k);
    && (c.confidence.HIGH? <==> known || exists m <- matches :: Key(m.ref) == k && specific(m.path))
    && (c.confidence.LOW? <==>
        && !known && (forall m <- matches :: Key(m.ref) != k)
        && forall d <- ds :: Key(d.ref) == k ==> !ScoresPositive(d))
    && (STATIC_MAPPING in c.sources <==> Finds(mapped, k))
    && (HISTORICAL_CASE in c.sources <==> Finds(remembered, k))
    && (WORKSPACE_METADATA in c.sources <==> exists d <- ds :: Key(d.ref) == k)
    && (CODE_SEARCH in c.sources <==> exists m <- matches :: Key(m.ref) == k)
  }

  // ---------- The score, signal by signal ----------

  /** A listing's points, term by term and flag by flag. */
  lemma ListingPoints(d: Descriptor)
    ensures
      var c := MetadataContribution(d);
      && c.ref == d.ref && c.source == WORKSPACE_METADATA
      && (d.overlap == 0 && !d.languageMatches && !d.recent && !d.archived ==> c.score == 0.0)
      && MetadataContribution(d.(overlap := d.overlap + 1)).score == c.score + 1.0
      && (!d.languageMatches ==> MetadataContribution(d.(languageMatches := true)).score == c.score + 1.5)
      && (!d.recent ==> MetadataContribution(d.(recent := true)).score == c.score + 1.0)
      && (!d.archived ==> MetadataContribution(d.(archived := true)).score == c.score - 2.0)
      && (c.confidence == if c.score > 0.0 then MEDIUM else LOW)
      && (c.score > 0.0 <==> ScoresPositive(d))
  {
  }

  lemma {:induction false} KnownTotal(k: string, keys: seq<string>, source: Source, score: real)
    ensures score == 10.0 ==> Total(k, KnownOf(keys, source, score)) == 10.0 * |Where(keys, Parsed(k))| as real
    ensures score == 8.0 ==> Total(k, KnownOf(keys, source, score)) == 8.0 * |Where(keys, Parsed(k))| as real
  {
    if keys != [] {
      var init, last := keys[..|keys| - 1], keys[|keys| - 1];
      assert keys == init + [last];
      KnownTotal(k, init, source, score);
      WhereOneMore(init, last, Parsed(k));
      var earlier, ref := KnownOf(init, source, score), RefFromKey(last);
      if ref.Some? {
        ParseThenPrint(last);
        TotalOneMore(k, earlier, Contribution(ref.value, source, score, HIGH, [], []));
      }
    }
  }

  lemma TotalOneMore(k: string, adds: seq<Contribution>, c: Contribution)
    ensures Total(k, adds + [c]) == Total(k, adds) + if Key(c.ref) == k then c.score else 0.0
  {
    assert (adds + [c])[..|adds|] == adds;
  }

  lemma {:induction false} ListedTotal(k: string, ds: seq<Descriptor>)
    ensures Total(k, MetadataOf(ds)) == ListedPoints(k, ds)
  {
    if ds != [] {
      var init, last := ds[..|ds| - 1], ds[|ds| - 1];
      assert ds == init + [last] && MetadataOf(ds)[..|ds| - 1] == MetadataOf(init);
      ListedTotal(k, init);
      WhereOneMore(init, last, WithLanguage(k));
      WhereOneMore(init, last, Recent(k));
      WhereOneMore(init, last, Archived(k));
    }
  }

  lemma {:induction false} PathsCounted(k: string, matches: seq<CodeMatch>, specific: string -> bool)
    ensures |PathsOf(k, matches)| == |Where(matches, MatchedIn(k))|
    ensures CountSpecific(PathsOf(k, matches), specific) == |Where(matches, SpecificIn(k, specific))|
  {
    if matches != [] {
      var init, last := matches[..|matches| - 1], matches[|matches| - 1];
      assert matches == init + [last];
      PathsCounted(k, init, specific);
      WhereOneMore(init, last, MatchedIn(k));
      WhereOneMore(init, last, SpecificIn(k, specific));
      var paths := PathsOf(k, init);
      SpecificOneMore(paths, last.path, specific);
      assert paths + [] == paths;
    }
  }

  lemma {:induction false} SpecificOneMore(paths: seq<string>, path: string, specific: string -> bool)
    ensures CountSpecific(paths + [path], specific) == CountSpecific(paths, specific) + if specific(path) then 1 else 0
  {
    var all := paths + [path];
    if paths == [] {
      assert all == [path] && all[1..] == [];
    } else {
      SpecificOneMore(paths[1..], path, specific);
      assert all[1..] == paths[1..] + [path] && all[0] == paths[0];
    }
  }

  /** Of contributions to different repositories only one counts. */
  lemma TotalOfOne(k: string, adds: seq<Contribution>, i: nat)
    requires i < |adds| && Key(adds[i].ref) == k
    requires forall i, j :: 0 <= i < j < |adds| ==> Key(adds[i].ref) != Key(adds[j].ref)
    ensures Total(k, adds) == adds[i].score
  {
    var before, x, after := adds[..i], adds[i], adds[i + 1..];
    assert adds == before + ([x] + after);
    TotalConcat(k, before, [x] + after);
    TotalConcat(k, [x], after);
    TotalOfUnmentioned(k, before);
    TotalOfUnmentioned(k, after);
    assert [x][..0] == [];
  }

  lemma {:induction false} HitsTotal(k: string, matches: seq<CodeMatch>, specific: string -> bool)
    ensures Total(k, HitsOf(matches, specific)) == MatchedPoints(k, matches, specific)
  {
    var hits := HitsOf(matches, specific);
    HitsOfAreHits(matches, specific);
    if PathsOf(k, matches) == [] {
      PathsCounted(k, matches, specific);
      TotalOfUnmentioned(k, hits);
    } else {
      var i :| 0 <= i < |hits| && Key(hits[i].ref) == k;
      TotalOfOne(k, hits, i);
      assert hits[i] in hits;
      HitPoints(hits[i], matches, specific);
    }
  }

  lemma {:induction false} HitPoints(c: Contribution, matches: seq<CodeMatch>, specific: string -> bool)
    requires IsHit(c, matches, specific)
    ensures c.score == MatchedPoints(Key(c.ref), matches, specific)
  {
    PathsCounted(Key(c.ref), matches, specific);
  }

  lemma {:induction false} ReplayTotal(k: string, start: seq<Contribution>, lists: seq<seq<CodeMatch>>,
                                       specific: string -> bool)
    ensures Total(k, Replay(start, lists, specific)) == Total(k, start) + MatchedPoints(k, Flat(lists), specific)
  {
    if lists != [] {
      var init, last := lists[..|lists| - 1], lists[|lists| - 1];
      ReplayTotal(k, start, init, specific);
      HitsTotal(k, last, specific);
      TotalConcat(k, Replay(start, init, specific), HitsOf(last, specific));
      WhereBoth(Flat(init), last, MatchedIn(k));
      WhereBoth(Flat(init), last, SpecificIn(k, specific));
    }
  }

  /** The contributions of all signals come to the points, added up. */
  lemma {:induction false} SignalsTotal(k: string, mapped: seq<string>, remembered: seq<string>, ds: seq<Descriptor>,
                     lists: seq<seq<CodeMatch>>, specific: string -> bool)
    ensures Total(k, Replay(AllKnown(mapped, remembered) + MetadataOf(ds), lists, specific)) ==
            KnownPoints(k, mapped, remembered) + ListedPoints(k, ds) + MatchedPoints(k, Flat(lists), specific)
  {
    var known := AllKnown(mapped, remembered);
    AllKnownTotal(k, mapped, remembered);
    ListedTotal(k, ds);
    TotalConcat(k, known, MetadataOf(ds));
    ReplayTotal(k, known + MetadataOf(ds), lists, specific);
  }

  lemma {:induction false} AllKnownTotal(k: string, mapped: seq<string>, remembered: seq<string>)
    ensures Total(k, AllKnown(mapped, remembered)) == KnownPoints(k, mapped, remembered)
  {
    KnownTotal(k, mapped, STATIC_MAPPING, 10.0);
    KnownTotal(k, remembered, HISTORICAL_CASE, 8.0);
    TotalConcat(k, KnownOf(mapped, STATIC_MAPPING, 10.0), KnownOf(remembered, HISTORICAL_CASE, 8.0));
  }

  // ---------- Confidence and sources ----------

  ghost predicate Says(k: string, f: Confidence, adds: seq<Contribution>) {
    exists a <- adds :: Key(a.ref) == k && a.confidence == f
  }

  lemma BothSay(k: string, f: Confidence, s: Source, a: seq<Contribution>, b: seq<Contribution>)
    ensures Says(k, f, a + b) <==> Says(k, f, a) || Says(k, f, b)
    ensures Cites(k, s, a + b) <==> Cites(k, s, a) || Cites(k, s, b)
  {
    assert forall x :: x in a + b <==> x in a || x in b;
  }

  lemma {:induction false} KnownSay(k: string, keys: seq<string>, source: Source, score: real)
    ensures forall c <- KnownOf(keys, source, score) :: c.source == source && c.confidence == HIGH
    ensures Says(k, HIGH, KnownOf(keys, source, score)) <==> Finds(keys, k)
    ensures Cites(k, source, KnownOf(keys, source, score)) <==> Finds(keys, k)
  {
    KnownAreHigh(keys, source, score);
    KnownMentionsIff(keys, source, score, k);
  }

  lemma {:induction false} KnownAreHigh(keys: seq<string>, source: Source, score: real)
    ensures forall c <- KnownOf(keys, source, score) :: c.source == source && c.confidence == HIGH
  {
    if keys != [] { KnownAreHigh(keys[..|keys| - 1], source, score); }
  }

  lemma ListingsSay(k: string, ds: seq<Descriptor>)
    ensures !Says(k, HIGH, MetadataOf(ds))
    ensures Says(k, MEDIUM, MetadataOf(ds)) <==> exists d <- ds :: Key(d.ref) == k && ScoresPositive(d)
    ensures forall s :: Cites(k, s, MetadataOf(ds)) <==> s == WORKSPACE_METADATA && exists d <- ds :: Key(d.ref) == k
  {
    var adds := MetadataOf(ds);
    forall i | 0 <= i < |ds|
      ensures adds[i] in adds && ds[i] in ds && (adds[i].confidence.MEDIUM? <==> ScoresPositive(ds[i]))
    {
      ListingPoints(ds[i]);
    }
  }

  lemma HitsSay(k: string, matches: seq<CodeMatch>, specific: string -> bool)
    ensures Says(k, HIGH, HitsOf(matches, specific)) <==> exists m <- matches :: Key(m.ref) == k && specific(m.path)
    ensures Says(k, HIGH, HitsOf(matches, specific)) || Says(k, MEDIUM, HitsOf(matches, specific)) <==>
            exists m <- matches :: Key(m.ref) == k
    ensures forall s :: Cites(k, s, HitsOf(matches, specific)) <==>
                        s == CODE_SEARCH && exists m <- matches :: Key(m.ref) == k
  {
    var hits := HitsOf(matches, specific);
    HitsOfAreHits(matches, specific);
    PathsComeFromMatches(k, matches);
    SpecificPathsComeFromMatches(k, matches, specific);
    if PathsOf(k, matches) != [] {
      var c :| c in hits && Key(c.ref) == k;
      assert IsHit(c, matches, specific);
    }
  }

  lemma {:induction false} SpecificPathsComeFromMatches(k: string, matches: seq<CodeMatch>, specific: string -> bool)
    ensures (exists p <- PathsOf(k, matches) :: specific(p)) <==>
            exists m <- matches :: Key(m.ref) == k && specific(m.path)
  {
    if matches != [] {
      var init, last := matches[..|matches| - 1], matches[|matches| - 1];
      SpecificPathsComeFromMatches(k, init, specific);
      assert matches == init + [last];
      assert forall m :: m in matches <==> m in init || m == last;
      assert forall p :: p in PathsOf(k, matches) <==> p in PathsOf(k, init) || (Key(last.ref) == k && p == last.path);
    }
  }

  lemma {:induction false} ReplaySays(k: string, start: seq<Contribution>, lists: seq<seq<CodeMatch>>,
                                      specific: string -> bool)
    ensures
      var all, matches := Replay(start, lists, specific), Flat(lists);
      && (Says(k, HIGH, all) <==> Says(k, HIGH, start) || exists m <- matches :: Key(m.ref) == k && specific(m.path))
      && (Says(k, HIGH, all) || Says(k, MEDIUM, all) <==>
          Says(k, HIGH, start) || Says(k, MEDIUM, start) || exists m <- matches :: Key(m.ref) == k)
  {
    if lists != [] {
      var init, last := lists[..|lists| - 1], lists[|lists| - 1];
      var before, hits := Replay(start, init, specific), HitsOf(last, specific);
      assert lists == init + [last];
      ReplaySays(k, start, init, specific);
      HitsSay(k, last, specific);
      forall m: CodeMatch ensures m in Flat(lists) <==> m in Flat(init) || m in last { FlatHas(init, last, m); }
      BothSay(k, HIGH, CODE_SEARCH, before, hits);
      BothSay(k, MEDIUM, CODE_SEARCH, before, hits);
    }
  }

  lemma {:induction false} ReplayCites(k: string, s: Source, start: seq<Contribution>, lists: seq<seq<CodeMatch>>,
                                       specific: string -> bool)
    ensures Cites(k, s, Replay(start, lists, specific)) <==>
            Cites(k, s, start) || (s == CODE_SEARCH && exists m <- Flat(lists) :: Key(m.ref) == k)
  {
    if lists != [] {
      var init, last := lists[..|lists| - 1], lists[|lists| - 1];
      assert lists == init + [last];
      ReplayCites(k, s, start, init, specific);
      HitsSay(k, last, specific);
      forall m: CodeMatch ensures m in Flat(lists) <==> m in Flat(init) || m in last { FlatHas(init, last, m); }
      BothSay(k, HIGH, s, Replay(start, init, specific), HitsOf(last, specific));
    }
  }

  lemma SourcesAreCited(k: string, start: seq<Contribution>, lists: seq<seq<CodeMatch>>, specific: string -> bool)
    ensures
      forall s :: Cites(k, s, Replay(start, lists, specific)) <==>
                  Cites(k, s, start) || (s == CODE_SEARCH && exists m <- Flat(lists) :: Key(m.ref) == k)
  {
    forall s
      ensures Cites(k, s, Replay(start, lists, specific)) <==>
              Cites(k, s, start) || (s == CODE_SEARCH && exists m <- Flat(lists) :: Key(m.ref) == k)
    {
      ReplayCites(k, s, start, lists, specific);
    }
  }

  /** What the first three signals say. */
  lemma StartSays(k: string, mapped: seq<string>, remembered: seq<string>, ds: seq<Descriptor>)
    ensures
      var start := AllKnown(mapped, remembered) + MetadataOf(ds);
      && (Says(k, HIGH, start) <==> Finds(mapped, k) || Finds(remembered, k))
      && (Says(k, MEDIUM, start) <==> exists d <- ds :: Key(d.ref) == k && ScoresPositive(d))
      && (Cites(k, STATIC_MAPPING, start) <==> Finds(mapped, k))
      && (Cites(k, HISTORICAL_CASE, start) <==> Finds(remembered, k))
      && (Cites(k, WORKSPACE_METADATA, start) <==> exists d <- ds :: Key(d.ref) == k)
      && !Cites(k, CODE_SEARCH, start)
  {
    var a, b, c := KnownOf(mapped, STATIC_MAPPING, 10.0), KnownOf(remembered, HISTORICAL_CASE, 8.0), MetadataOf(ds);
    KnownSay(k, mapped, STATIC_MAPPING, 10.0);
    KnownSay(k, remembered, HISTORICAL_CASE, 8.0);
    ListingsSay(k, ds);
    forall f: Confidence, s: Source
      ensures Says(k, f, (a + b) + c) <==> Says(k, f, a) || Says(k, f, b) || Says(k, f, c)
      ensures Cites(k, s, (a + b) + c) <==> Cites(k, s, a) || Cites(k, s, b) || Cites(k, s, c)
    {
      BothSay(k, f, s, a, b);
      BothSay(k, f, s, a + b, c);
    }
  }

  /** A candidate that sums up all signals has the points, the confidence and the sources that follow from
      what was mapped, remembered, listed and matched. */
  lemma {:induction false} CandidateIsExplained(c: Candidate, k: string, mapped: seq<string>, remembered: seq<string>,
                             ds: seq<Descriptor>, lists: seq<seq<CodeMatch>>, specific: string -> bool,
                             adds: seq<Contribution>)
    requires adds == Replay(AllKnown(mapped, remembered) + MetadataOf(ds), lists, specific) && SumsUp(c, k, adds)
    ensures IsExplained(c, k, mapped, remembered, ds, Flat(lists), specific)
  {
    var start := AllKnown(mapped, remembered) + MetadataOf(ds);
    SignalsTotal(k, mapped, remembered, ds, lists, specific);
    StartSays(k, mapped, remembered, ds);
    ReplaySays(k, start, lists, specific);
    SourcesAreCited(k, start, lists, specific);
    BestIsSaid(c.confidence, k, adds);
  }

  lemma BestIsSaid(f: Confidence, k: string, adds: seq<Contribution>)
    requires IsBest(f, k, adds)
    ensures f.HIGH? <==> Says(k, HIGH, adds)
    ensures f.LOW? <==> !Says(k, HIGH, adds) && !Says(k, MEDIUM, adds)
  {
  }

  /** The candidates are the repositories that were mapped, remembered, listed or matched, each with what
      follows from that. */
  ghost predicate Explains(m: map<string, Candidate>, mapped: seq<string>, remembered: seq<string>,
                           ds: seq<Descriptor>, matches: seq<CodeMatch>, specific: string -> bool) {
    && (forall k :: k in m <==> IsFound(k, mapped, remembered, ds, matches))
    && forall k <- m :: IsExplained(m[k], k, mapped, remembered, ds, matches, specific)
  }

  ghost predicate IsExplained(c: Candidate, k: string, mapped: seq<string>, remembered: seq<string>,
                              ds: seq<Descriptor>, matches: seq<CodeMatch>, specific: string -> bool) {
    && AddsUp(c, k, mapped, remembered, ds, matches, specific)
    && IsRated(c, k, mapped, remembered, ds, matches, specific)
  }

  ghost predicate IsFound(k: string, mapped: seq<string>, remembered: seq<string>, ds: seq<Descriptor>,
                          matches: seq<CodeMatch>) {
    || Finds(mapped, k) || Finds(remembered, k)
    || (exists d <- ds :: Key(d.ref) == k) || exists c <- matches :: Key(c.ref) == k
  }

  lemma CandidatesAreExplained(m: map<string, Candidate>, mapped: seq<string>, remembered: seq<string>,
                               ds: seq<Descriptor>, lists: seq<seq<CodeMatch>>, specific: string -> bool,
                               adds: seq<Contribution>)
    requires adds == Replay(AllKnown(mapped, remembered) + MetadataOf(ds), lists, specific) && Summarises(m, adds)
    ensures Explains(m, mapped, remembered, ds, Flat(lists), specific)
  {
    forall k ensures k in m <==> IsFound(k, mapped, remembered, ds, Flat(lists)) {
      MentionedIff(k, mapped, remembered, ds, lists, specific);
    }
    forall k | k in m ensures IsExplained(m[k], k, mapped, remembered, ds, Flat(lists), specific) {
      CandidateIsExplained(m[k], k, mapped, remembered, ds, lists, specific, adds);
    }
  }

  lemma MentionedIff(k: string, mapped: seq<string>, remembered: seq<string>, ds: seq<Descriptor>,
                     lists: seq<seq<CodeMatch>>, specific: string -> bool)
    ensures Mentions(k, Replay(AllKnown(mapped, remembered) + MetadataOf(ds), lists, specific)) <==>
            IsFound(k, mapped, remembered, ds, Flat(lists))
  {
    var start := AllKnown(mapped, remembered) + MetadataOf(ds);
    StartSays(k, mapped, remembered, ds);
    SourcesAreCited(k, start, lists, specific);
    MentionedIsCited(k, Replay(start, lists, specific));
  }

  lemma MentionedIsCited(k: string, adds: seq<Contribution>)
    ensures Mentions(k, adds) <==>
            || Cites(k, STATIC_MAPPING, adds) || Cites(k, HISTORICAL_CASE, adds)
            || Cites(k, WORKSPACE_METADATA, adds) || Cites(k, CODE_SEARCH, adds)
  {
  }
}
