/** What the code-search signal contributes. */
module CodeHits {
  import opened Wrappers
  import opened RepoRefs
  import Sorting
  import opened Contributions

  datatype CodeMatch = CodeMatch(ref: RepoRef, path: string)

  /** The matched paths of one repository, in order. */
  function PathsOf(key: string, matches: seq<CodeMatch>): seq<string> {
    if matches == [] then [] else
      var m := matches[|matches| - 1];
      PathsOf(key, matches[..|matches| - 1]) + if Key(m.ref) == key then [m.path] else []
  }

  function CountSpecific(paths: seq<string>, specific: string -> bool): (n: nat)
    ensures n <= |paths| && (n > 0 <==> exists p <- paths :: specific(p))
  {
    if paths == [] then 0 else
      (if specific(paths[0]) then 1 else 0) + CountSpecific(paths[1..], specific)
  }

  function Commas(parts: seq<string>): string {
    if parts == [] then "" else if |parts| == 1 then parts[0] else parts[0] + ", " + Commas(parts[1..])
  }

  /** `byRepo` has the matched paths of each repository. */
  ghost predicate Grouped(byRepo: map<string, seq<string>>, matches: seq<CodeMatch>) {
    && (forall k :: k in byRepo <==> PathsOf(k, matches) != [])
    && forall k <- byRepo :: byRepo[k] == PathsOf(k, matches)
  }

  function Group(byRepo: map<string, seq<string>>, m: CodeMatch): map<string, seq<string>> {
    var key := Key(m.ref);
    byRepo[key := (if key in byRepo then byRepo[key] else []) + [m.path]]
  }

  lemma GroupOneMore(byRepo: map<string, seq<string>>, matches: seq<CodeMatch>, m: CodeMatch)
    requires Grouped(byRepo, matches)
    ensures Grouped(Group(byRepo, m), matches + [m])
  {
    assert (matches + [m])[..|matches|] == matches;
    forall k ensures PathsOf(k, matches + [m]) == PathsOf(k, matches) + (if Key(m.ref) == k then [m.path] else []) {}
  }

  /** The repositories with a match, in order of their first. */
  function KeysIn(matches: seq<CodeMatch>): seq<string> {
    if matches == [] then [] else
      WithKey(KeysIn(matches[..|matches| - 1]), Key(matches[|matches| - 1].ref))
  }

  lemma GroupUpTo(byRepo: map<string, seq<string>>, matches: seq<CodeMatch>, i: nat)
    requires i < |matches| && Grouped(byRepo, matches[..i])
    ensures Grouped(Group(byRepo, matches[i]), matches[..i + 1])
  {
    GroupOneMore(byRepo, matches[..i], matches[i]);
    assert matches[..i + 1] == matches[..i] + [matches[i]];
  }

  function WithKey(keys: seq<string>, key: string): seq<string> {
    if key in keys then keys else keys + [key]
  }

  lemma KeysOneMore(matches: seq<CodeMatch>, i: nat)
    requires i < |matches|
    ensures KeysIn(matches[..i + 1]) == WithKey(KeysIn(matches[..i]), Key(matches[i].ref))
  {
    assert matches[..i + 1][..i] == matches[..i];
  }

  /** The paths by repository, and the repositories in order of first match. */
  method GroupByRepo(matches: seq<CodeMatch>) returns (byRepo: map<string, seq<string>>, keys: seq<string>)
    ensures Grouped(byRepo, matches) && keys == KeysIn(matches)
  {
    byRepo, keys := map[], [];
    for i := 0 to |matches|
      invariant Grouped(byRepo, matches[..i]) && keys == KeysIn(matches[..i])
    {
      GroupUpTo(byRepo, matches, i);
      KeysOneMore(matches, i);
      byRepo, keys := Group(byRepo, matches[i]), WithKey(keys, Key(matches[i].ref));
    }
    assert matches[..|matches|] == matches;
  }

  lemma {:induction false} KeysInIff(matches: seq<CodeMatch>)
    ensures Sorting.NoDuplicates(KeysIn(matches))
    ensures forall k :: k in KeysIn(matches) <==> PathsOf(k, matches) != []
  {
    if matches != [] { KeysInIff(matches[..|matches| - 1]); }
  }

  /** The ref of the first match in the repository. */
  function FirstRef(key: string, matches: seq<CodeMatch>): (r: Option<RepoRef>)
    ensures r.Some? ==> Key(r.value) == key
  {
    if matches == [] then None
    else if Key(matches[0].ref) == key then Some(matches[0].ref)
    else FirstRef(key, matches[1..])
  }

  lemma {:induction false} FirstRefIff(key: string, matches: seq<CodeMatch>)
    ensures FirstRef(key, matches).Some? <==> exists m <- matches :: Key(m.ref) == key
    ensures FirstRef(key, matches).Some? ==> IsFirstRef(FirstRef(key, matches).value, key, matches)
  {
    if matches != [] && Key(matches[0].ref) != key {
      var tail := matches[1..];
      FirstRefIff(key, tail);
      assert forall i :: 0 <= i < |tail| ==> tail[i] == matches[i + 1];
      if FirstRef(key, tail).Some? {
        var i :| 0 <= i < |tail| && IsFirstMatch(i, key, tail) && tail[i].ref == FirstRef(key, tail).value;
        assert IsFirstMatch(i + 1, key, matches);
      }
    } else if matches != [] {
      assert IsFirstMatch(0, key, matches);
    }
  }

  ghost predicate IsFirstMatch(i: nat, key: string, matches: seq<CodeMatch>)
    requires i < |matches|
  {
    Key(matches[i].ref) == key && forall j :: 0 <= j < i ==> Key(matches[j].ref) != key
  }

  ghost predicate IsFirstRef(ref: RepoRef, key: string, matches: seq<CodeMatch>) {
    exists i :: 0 <= i < |matches| && IsFirstMatch(i, key, matches) && matches[i].ref == ref
  }

  lemma {:induction false} PathsComeFromMatches(key: string, matches: seq<CodeMatch>)
    ensures PathsOf(key, matches) != [] <==> exists m <- matches :: Key(m.ref) == key
  {
    if matches != [] {
      var init, last := matches[..|matches| - 1], matches[|matches| - 1];
      PathsComeFromMatches(key, init);
      assert matches == init + [last];
      assert forall m :: m in matches <==> m in init || m == last;
    }
  }

  lemma MatchedHasRef(key: string, matches: seq<CodeMatch>)
    ensures PathsOf(key, matches) != [] <==> FirstRef(key, matches).Some?
  {
    PathsComeFromMatches(key, matches);
    FirstRefIff(key, matches);
  }

  lemma KeysHaveRefs(matches: seq<CodeMatch>)
    ensures forall k <- KeysIn(matches) :: FirstRef(k, matches).Some?
  {
    forall k | k in KeysIn(matches) ensures FirstRef(k, matches).Some? {
      KeysInIff(matches);
      MatchedHasRef(k, matches);
    }
  }

  /** What the paths matched in a repository contribute to it. */
  function Hit(ref: RepoRef, paths: seq<string>, specific: string -> bool): Contribution {
    var n := CountSpecific(paths, specific);
    Contribution(ref, CODE_SEARCH, 3.0 * |paths| as real + 2.0 * n as real, if n > 0 then HIGH else MEDIUM,
                 ["code-search hit(s): " + Commas(paths[..Min(3, |paths|)])], paths[..Min(10, |paths|)])
  }

  function HitOf(key: string, matches: seq<CodeMatch>, specific: string -> bool): Contribution
    requires FirstRef(key, matches).Some?
  {
    Hit(FirstRef(key, matches).value, PathsOf(key, matches), specific)
  }

  function HitsFor(keys: seq<string>, matches: seq<CodeMatch>, specific: string -> bool): (r: seq<Contribution>)
    requires forall k <- keys :: FirstRef(k, matches).Some?
    ensures |r| == |keys| && forall i :: 0 <= i < |keys| ==> r[i] == HitOf(keys[i], matches, specific)
  {
    seq(|keys|, i requires 0 <= i < |keys| => HitOf(keys[i], matches, specific))
  }

  lemma HitsForOneMore(keys: seq<string>, i: nat, matches: seq<CodeMatch>, specific: string -> bool)
    requires i < |keys| && forall k <- keys :: FirstRef(k, matches).Some?
    ensures HitsFor(keys[..i + 1], matches, specific) ==
            HitsFor(keys[..i], matches, specific) + [HitOf(keys[i], matches, specific)]
  {
  }

  /** One contribution for each repository with a match. */
  function HitsOf(matches: seq<CodeMatch>, specific: string -> bool): seq<Contribution> {
    KeysHaveRefs(matches);
    HitsFor(KeysIn(matches), matches, specific)
  }

  // ---------- What a hit is ----------

  /** Three points for every matched path of the repository, two more for each specific one; three
      of the paths are named as evidence and ten are kept. */
  ghost predicate IsHit(c: Contribution, matches: seq<CodeMatch>, specific: string -> bool) {
    var paths := PathsOf(Key(c.ref), matches);
    && paths != [] && c.source == CODE_SEARCH
    && c.score == 3.0 * |paths| as real + 2.0 * CountSpecific(paths, specific) as real
    && (c.confidence == if exists p <- paths :: specific(p) then HIGH else MEDIUM)
    && c.evidence == ["code-search hit(s): " + Commas(paths[..Min(3, |paths|)])]
    && c.paths == paths[..Min(10, |paths|)]
    && IsFirstRef(c.ref, Key(c.ref), matches)
  }

  /** One hit for each repository with a match. */
  ghost predicate AreHits(added: seq<Contribution>, matches: seq<CodeMatch>, specific: string -> bool) {
    && (forall c <- added :: IsHit(c, matches, specific))
    && (forall i, j :: 0 <= i < j < |added| ==> Key(added[i].ref) != Key(added[j].ref))
    && (forall k :: PathsOf(k, matches) != [] <==> Mentions(k, added))
  }

  lemma HitOfIsHit(key: string, matches: seq<CodeMatch>, specific: string -> bool)
    requires FirstRef(key, matches).Some?
    ensures Key(HitOf(key, matches, specific).ref) == key && IsHit(HitOf(key, matches, specific), matches, specific)
    ensures HitOf(key, matches, specific).score > 0.0
  {
    FirstRefIff(key, matches);
    MatchedHasRef(key, matches);
  }

  /** Hits with the keys of the matches, in order, mention just the repositories with a match. */
  lemma HitsMentionIff(matches: seq<CodeMatch>, hits: seq<Contribution>, k: string)
    requires |hits| == |KeysIn(matches)| && forall i :: 0 <= i < |hits| ==> Key(hits[i].ref) == KeysIn(matches)[i]
    ensures PathsOf(k, matches) != [] <==> Mentions(k, hits)
  {
    KeysInIff(matches);
    if k in KeysIn(matches) {
      var i :| 0 <= i < |KeysIn(matches)| && KeysIn(matches)[i] == k;
      assert hits[i] in hits;
    }
  }

  /** The hits of a list of matches are as described. */
  lemma HitsOfAreHits(matches: seq<CodeMatch>, specific: string -> bool)
    ensures AreHits(HitsOf(matches, specific), matches, specific)
  {
    var keys, hits := KeysIn(matches), HitsOf(matches, specific);
    KeysHaveRefs(matches);
    KeysInIff(matches);
    forall i | 0 <= i < |keys| ensures Key(hits[i].ref) == keys[i] && IsHit(hits[i], matches, specific) {
      HitOfIsHit(keys[i], matches, specific);
    }
    forall k ensures PathsOf(k, matches) != [] <==> Mentions(k, hits) {
      HitsMentionIff(matches, hits, k);
    }
  }
}
