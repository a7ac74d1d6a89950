/** Slash-separated paths. */
module Paths {
  /** Components of a path, as `"a/b".split("/")`. */
  function Split(s: string): (r: seq<string>)
    ensures r != []
  {
    if s == "" then [""]
    else if s[0] == '/' then [""] + Split(s[1..])
    else var rest := Split(s[1..]); [[s[0]] + rest[0]] + rest[1..]
  }

  function Join(parts: seq<string>): string {
    if parts == [] then "" else
    if |parts| == 1 then parts[0] else parts[0] + "/" + Join(parts[1..])
  }

  /** `Path(path).is_absolute() or ".." in Path(path).parts` */
  predicate LeavesRepository(path: string) {
    (path != "" && path[0] == '/') || ".." in Split(path)
  }

  /** The components of a file git can track. */
  predicate IsName(name: string) {
    name != "" && '/' !in name && name != "." && name != ".."
  }

  type FilePath = seq<string>

  ghost predicate IsFile(p: FilePath) {
    p != [] && forall i :: 0 <= i < |p| ==> IsName(p[i])
  }

  lemma {:induction false} SplitName(name: string)
    requires '/' !in name
    ensures Split(name) == [name]
  {
    if name != "" {
      assert name[0] in name;
      assert forall c :: c in name[1..] ==> c in name;
      SplitName(name[1..]);
      assert [name[0]] + name[1..] == name;
    }
  }

  lemma {:induction false} SplitCons(name: string, rest: string)
    requires '/' !in name
    ensures Split(name + "/" + rest) == [name] + Split(rest)
  {
    var s := name + "/" + rest;
    if name != "" {
      assert name[0] in name;
      assert forall c :: c in name[1..] ==> c in name;
      SplitCons(name[1..], rest);
      assert s[1..] == name[1..] + "/" + rest;
      assert [name[0]] + name[1..] == name;
    } else {
      assert s[1..] == rest;
    }
  }

  /** Splitting undoes joining. */
  lemma {:induction false} SplitJoin(p: FilePath)
    requires p != [] && forall i :: 0 <= i < |p| ==> '/' !in p[i]
    ensures Split(Join(p)) == p
  {
    if |p| == 1 {
      SplitName(p[0]);
    } else {
      SplitJoin(p[1..]);
      SplitCons(p[0], Join(p[1..]));
    }
  }

  /** A path text names one file only. */
  lemma JoinIsInjective(p: FilePath, q: FilePath)
    requires IsFile(p) && IsFile(q) && Join(p) == Join(q)
    ensures p == q
  {
    SplitJoin(p);
    SplitJoin(q);
  }

  /** The path of a file is neither absolute nor has a `..` in it. */
  lemma FilesStayInside(p: FilePath)
    requires IsFile(p)
    ensures !LeavesRepository(Join(p)) && !LeavesRepository(Join(p) + "/")
  {
    SplitJoin(p);
    assert p[0][0] in p[0];
    assert Join(p)[0] == p[0][0];
    var q := p + [""];
    JoinAppend(p, "");
    assert Join(p) + "/" + "" == Join(p) + "/";
    SplitJoin(q);
  }

  lemma {:induction false} JoinAppend(p: FilePath, name: string)
    requires p != []
    ensures Join(p + [name]) == Join(p) + "/" + name
  {
    var q := p + [name];
    assert q[1..] == p[1..] + [name];
    if |p| == 1 {
      assert q[1..] == [name];
    } else {
      JoinAppend(p[1..], name);
      assert p[0] + "/" + (Join(p[1..]) + "/" + name) == (p[0] + "/" + Join(p[1..])) + "/" + name;
    }
  }
}
