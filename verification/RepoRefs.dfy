/** Repository identities and their printed keys, `provider:workspace/repo`. */
module RepoRefs {
  import opened Wrappers

  datatype RepoRef = RepoRef(provider: string, workspace: string, repo: string)

  const PROVIDERS := {"github", "bitbucket", "gitlab"}

  /** What the contract of a ref accepts. */
  predicate ValidRef(r: RepoRef) {
    r.provider in PROVIDERS && 1 <= |r.workspace| <= 200 && 1 <= |r.repo| <= 300
  }

  function Key(r: RepoRef): string {
    r.provider + ":" + r.workspace + "/" + r.repo
  }

  /** Where `c` first occurs in `s`, or `|s|`. */
  function IndexOf(c: char, s: string): (i: nat)
    ensures i <= |s| && c !in s[..i] && (i < |s| ==> s[i] == c)
  {
    if s == "" || s[0] == c then 0 else
      var i := 1 + IndexOf(c, s[1..]);
      assert s[..i] == [s[0]] + s[1..][..i - 1];
      i
  }

  /** `_ref_from_key`: split at the first ':', then at the first '/'. */
  function RefFromKey(key: string): Option<RepoRef> {
    var colon := IndexOf(':', key);
    if colon == |key| then None else RefFromParts(key[..colon], key[colon + 1..])
  }

  function RefFromParts(provider: string, rest: string): Option<RepoRef> {
    var slash := IndexOf('/', rest);
    if slash == |rest| then None else
      var ref := RepoRef(provider, rest[..slash], rest[slash + 1..]);
      if ValidRef(ref) then Some(ref) else None
  }

  lemma {:induction false} SplitAtFirst(c: char, before: string, after: string)
    requires c !in before
    ensures var s := before + [c] + after;
      IndexOf(c, s) == |before| && s[..|before|] == before && s[|before| + 1..] == after
  {
    var s := before + [c] + after;
    if before != "" {
      assert before[0] in before;
      assert s[1..] == before[1..] + [c] + after;
      SplitAtFirst(c, before[1..], after);
    }
  }

  /** Printing what was parsed gives the key back. */
  lemma ParseThenPrint(key: string)
    requires RefFromKey(key).Some?
    ensures Key(RefFromKey(key).value) == key
    ensures ValidRef(RefFromKey(key).value) && '/' !in RefFromKey(key).value.workspace
  {
    var colon := IndexOf(':', key);
    var provider, rest := key[..colon], key[colon + 1..];
    var slash := IndexOf('/', rest);
    assert rest == rest[..slash] + "/" + rest[slash + 1..];
    assert key == provider + ":" + rest;
    Associates(provider + ":", rest[..slash], "/" + rest[slash + 1..]);
    Associates(provider + ":" + rest[..slash], "/", rest[slash + 1..]);
    Associates(rest[..slash], "/", rest[slash + 1..]);
  }

  lemma Associates<T>(a: seq<T>, b: seq<T>, c: seq<T>)
    ensures a + b + c == a + (b + c)
  {
    assert a + b + c == a + (b + c);
  }

  lemma KeyOfParts(r: RepoRef)
    requires ValidRef(r)
    ensures
      var rest := r.workspace + "/" + r.repo;
      && Key(r) == r.provider + ":" + rest
      && IndexOf(':', Key(r)) == |r.provider| && Key(r)[..|r.provider|] == r.provider
      && Key(r)[|r.provider| + 1..] == rest
  {
    Associates(r.provider + ":", r.workspace, "/" + r.repo);
    Associates(r.provider + ":" + r.workspace, "/", r.repo);
    Associates(r.workspace, "/", r.repo);
    SplitAtFirst(':', r.provider, r.workspace + "/" + r.repo);
  }

  /** Parsing what was printed gives the ref back exactly when its workspace id has no slash. */
  lemma PrintThenParse(r: RepoRef)
    requires ValidRef(r)
    ensures RefFromKey(Key(r)) == Some(r) <==> '/' !in r.workspace
  {
    var key, rest := Key(r), r.workspace + "/" + r.repo;
    KeyOfParts(r);
    assert RefFromKey(key) == RefFromParts(r.provider, rest);
    if '/' !in r.workspace {
      SplitAtFirst('/', r.workspace, r.repo);
    } else if RefFromKey(key) == Some(r) {
      ParseThenPrint(key);
    }
  }

  /** A key parses as a ref exactly when it is the ref's provider, a colon, its workspace without a slash, a slash and
      its repository, of a known provider and within the bounds. */
  lemma ParsesIff(key: string, r: RepoRef)
    ensures RefFromKey(key) == Some(r) <==>
            && key == r.provider + ":" + r.workspace + "/" + r.repo && '/' !in r.workspace
            && (r.provider == "github" || r.provider == "bitbucket" || r.provider == "gitlab")
            && 1 <= |r.workspace| <= 200 && 1 <= |r.repo| <= 300
  {
    if RefFromKey(key) == Some(r) {
      ParseThenPrint(key);
    }
    if ValidRef(r) && '/' !in r.workspace && Key(r) == key {
      PrintThenParse(r);
    }
  }

  lemma SubgroupsCanCollide()
    ensures
      var a, b := RepoRef("gitlab", "group", "team/app"), RepoRef("gitlab", "group/team", "app");
      ValidRef(a) && ValidRef(b) && a != b && Key(a) == Key(b)
  {
    var a, b := RepoRef("gitlab", "group", "team/app"), RepoRef("gitlab", "group/team", "app");
    assert Key(a) == "gitlab:group/team/app" == Key(b);
  }

  /** Splitting the part after the provider at the slash at `i` gives a valid ref. */
  predicate SplitsAt(full: string, i: nat) {
    i < |full| && full[i] == '/' && 1 <= i <= 200 && 1 <= |full| - i - 1 <= 300
  }

  lemma OtherRefSplitsElsewhere(a: RepoRef, b: RepoRef)
    requires ValidRef(a) && ValidRef(b) && b != a && Key(b) == Key(a)
    ensures |b.workspace| != |a.workspace| && SplitsAt(a.workspace + "/" + a.repo, |b.workspace|)
  {
    KeyOfParts(a);
    KeyOfParts(b);
    SameParts(a.workspace, a.repo, b.workspace, b.repo);
  }

  lemma OtherSplitIsARef(a: RepoRef, i: nat) returns (b: RepoRef)
    requires ValidRef(a) && i != |a.workspace| && SplitsAt(a.workspace + "/" + a.repo, i)
    ensures ValidRef(b) && b != a && Key(b) == Key(a)
  {
    var full := a.workspace + "/" + a.repo;
    b := RepoRef(a.provider, full[..i], full[i + 1..]);
    assert full == full[..i] + "/" + full[i + 1..];
    KeyOfParts(a);
    KeyOfParts(b);
  }

  /** Another ref has the same key exactly when the workspace and the repository can also be told
      apart at some other slash. */
  lemma KeyIsSharedIff(a: RepoRef)
    requires ValidRef(a)
    ensures
      var full := a.workspace + "/" + a.repo;
      (exists b :: ValidRef(b) && b != a && Key(b) == Key(a)) <==>
      exists i: nat :: i != |a.workspace| && SplitsAt(full, i)
  {
    forall b | ValidRef(b) && b != a && Key(b) == Key(a)
      ensures exists i: nat :: i != |a.workspace| && SplitsAt(a.workspace + "/" + a.repo, i)
    {
      OtherRefSplitsElsewhere(a, b);
    }
    if i: nat :| i != |a.workspace| && SplitsAt(a.workspace + "/" + a.repo, i) {
      var b := OtherSplitIsARef(a, i);
    }
  }

  lemma SameParts(w: string, r: string, v: string, q: string)
    requires w + "/" + r == v + "/" + q
    ensures |v| < |v + "/" + q| && (v + "/" + q)[|v|] == '/' && |v + "/" + q| - |v| - 1 == |q|
    ensures |v| == |w| ==> v == w && q == r
  {
    var full := w + "/" + r;
    assert full[..|w|] == w && full[|w| + 1..] == r;
    assert full[..|v|] == v && full[|v| + 1..] == q;
  }
}
