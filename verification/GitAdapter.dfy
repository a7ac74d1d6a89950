/** `SubprocessGitAdapter.preflight` and `commit` over an abstract working tree and index. */
module GitAdapter {
  import opened Control
  import opened Paths

  /** `staged`: the index differs from HEAD; `modified`: the tree differs from the index. */
  datatype Tree = Tree(tracked: set<FilePath>, staged: set<FilePath>, modified: set<FilePath>, untracked: set<FilePath>)

  ghost predicate IsTree(t: Tree) {
    && (forall p :: p in t.tracked + t.staged + t.modified + t.untracked ==> IsFile(p))
    && t.untracked !! t.tracked
  }

  predicate HasTrackedUnder(t: Tree, dir: FilePath) {
    exists p <- t.tracked :: dir <= p
  }

  /** How much of an untracked path `git status --short` shows: up to the first directory that
      holds nothing tracked. */
  function ShownDepth(t: Tree, p: FilePath, k: nat): (d: nat)
    requires 1 <= k <= |p|
    ensures k <= d <= |p|
    ensures d < |p| ==> !HasTrackedUnder(t, p[..d])
    ensures forall j :: k <= j < d ==> HasTrackedUnder(t, p[..j])
    decreases |p| - k
  {
    if k == |p| || !HasTrackedUnder(t, p[..k]) then k else ShownDepth(t, p, k + 1)
  }

  /** The path column of an untracked entry; a collapsed directory ends in a slash. */
  function ShownUntracked(t: Tree, p: FilePath): string {
    if p == [] then "" else
    var d := ShownDepth(t, p, 1);
    if d == |p| then Join(p) else Join(p[..d]) + "/"
  }

  /** The paths `git status --short` prints. */
  ghost function Status(t: Tree): set<string>
    requires IsTree(t)
  {
    (set p | p in t.staged + t.modified :: Join(p)) + (set p | p in t.untracked :: ShownUntracked(t, p))
  }

  ghost predicate PreflightPasses(t: Tree, approved: seq<string>)
    requires IsTree(t)
  {
    && (forall a <- approved :: !LeavesRepository(a))
    && (forall s :: s in Status(t) ==> s in approved)
  }

  /** `git status` shows the first `k` components of `p`: all of it, or up to the first directory that holds nothing
      tracked. */
  ghost predicate IsShownTo(t: Tree, p: FilePath, k: int) {
    && 1 <= k <= |p|
    && (forall j :: 1 <= j < k ==> exists q <- t.tracked :: p[..j] <= q)
    && (k < |p| ==> !exists q <- t.tracked :: p[..k] <= q)
  }

  /** Every changed file is approved, and every untracked one is, or the directory it is shown as. */
  ghost predicate ShowsOnly(t: Tree, approved: seq<string>) {
    && (forall p <- t.staged + t.modified :: Join(p) in approved)
    && forall p, k :: p in t.untracked && IsShownTo(t, p, k) ==>
        (if k == |p| then Join(p) else Join(p[..k]) + "/") in approved
  }

  lemma ShownIsUnique(t: Tree, p: FilePath, k: int)
    requires p != [] && IsShownTo(t, p, k)
    ensures k == ShownDepth(t, p, 1)
  {
    var d := ShownDepth(t, p, 1);
    assert k < d ==> HasTrackedUnder(t, p[..k]);
  }

  lemma ShowsOnlyIff(t: Tree, approved: seq<string>)
    requires IsTree(t)
    ensures (forall s :: s in Status(t) ==> s in approved) <==> ShowsOnly(t, approved)
  {
    if forall s :: s in Status(t) ==> s in approved {
      forall p | p in t.staged + t.modified ensures Join(p) in approved { assert Join(p) in Status(t); }
      forall p, k | p in t.untracked && IsShownTo(t, p, k)
        ensures (if k == |p| then Join(p) else Join(p[..k]) + "/") in approved
      {
        assert IsFile(p) && ShownUntracked(t, p) in Status(t);
        ShownIsUnique(t, p, k);
      }
    }
    if ShowsOnly(t, approved) {
      forall p | p in t.untracked ensures ShownUntracked(t, p) in approved {
        assert IsFile(p);
        var d := ShownDepth(t, p, 1);
        forall j | 1 <= j < d ensures exists q <- t.tracked :: p[..j] <= q { assert HasTrackedUnder(t, p[..j]); }
        assert IsShownTo(t, p, d);
      }
    }
  }

  /** Which paths a pathspec selects is git's business: any relation will do. */
  type Pathspecs = (string, FilePath) -> bool

  predicate Selected(m: Pathspecs, approved: seq<string>, p: FilePath) {
    exists a <- approved :: m(a, p)
  }

  /** What `git add -- approved...` then `git commit` puts into the commit. */
  function CommitContents(t: Tree, m: Pathspecs, approved: seq<string>): set<FilePath> {
    t.staged + (set p | p in t.modified + t.untracked && Selected(m, approved, p))
  }

  /** `p` was changed or is new, and some approved pathspec selects it. */
  predicate IsAdded(t: Tree, m: Pathspecs, approved: seq<string>, p: FilePath) {
    (p in t.modified || p in t.untracked) && exists a <- approved :: m(a, p)
  }

  /** The commit has all that was staged and every change selected; the other changes stay where they are. */
  ghost predicate IsCommit(t: Tree, m: Pathspecs, approved: seq<string>, contents: set<FilePath>, t': Tree) {
    && (forall p :: p in contents <==> p in t.staged || IsAdded(t, m, approved, p))
    && t'.staged == {} && IsLeft(t, m, approved, t')
  }

  /** What adding leaves in the tree. */
  ghost predicate IsLeft(t: Tree, m: Pathspecs, approved: seq<string>, t': Tree) {
    && (forall p :: p in t'.modified <==> p in t.modified && !IsAdded(t, m, approved, p))
    && (forall p :: p in t'.untracked <==> p in t.untracked && !IsAdded(t, m, approved, p))
    && (forall p :: p in t'.tracked <==> p in t.tracked || (p in t.untracked && IsAdded(t, m, approved, p)))
  }

  class Repository {
    var tree: Tree
    var commits: seq<set<FilePath>>

    ghost predicate Valid()
      reads this
    {
      IsTree(tree)
    }

    constructor (tree: Tree)
      requires IsTree(tree)
      ensures Valid() && this.tree == tree && commits == []
    {
      this.tree, commits := tree, [];
    }

    /** Nothing is changed; it succeeds exactly when every path is relative and every change shown
        is approved. `gitFails`: the status command itself fails. */
    method Preflight(approved: seq<string>, gitFails: bool, shown: set<string>) returns (status: OperationStatus)
      requires Valid() && shown == Status(tree)
      ensures status == SUCCEEDED <==> !gitFails && PreflightPasses(tree, approved)
      ensures status == SUCCEEDED ==> ShowsOnly(tree, approved)
      ensures status == BLOCKED <==>
        (exists a <- approved :: LeavesRepository(a)) || (!gitFails && !ShowsOnly(tree, approved))
      ensures status == FAILED <==> gitFails && forall a <- approved :: !LeavesRepository(a)
      ensures status in {SUCCEEDED, FAILED, BLOCKED}
    {
      ShowsOnlyIff(tree, approved);
      if exists a <- approved :: LeavesRepository(a) {
        return BLOCKED;
      }
      if gitFails {
        return FAILED;
      }
      var unexpected := set s | s in shown && s !in approved;
      assert forall s :: s in Status(tree) && s !in approved ==> s in unexpected;
      return if unexpected != {} then BLOCKED else SUCCEEDED;
    }

    /** `addFails`, `commitFails`: git refuses (an unmatched pathspec, a hook, nothing to commit). */
    method Commit(approved: seq<string>, m: Pathspecs, addFails: bool, commitFails: bool)
      returns (status: OperationStatus)
      requires Valid()
      modifies this
      ensures Valid()
      ensures status == if addFails || commitFails then FAILED else SUCCEEDED
      ensures commits == if addFails || commitFails then old(commits)
        else old(commits) + [CommitContents(old(tree), m, approved)]
      ensures addFails ==> tree == old(tree)
      ensures status == SUCCEEDED ==>
        |commits| == |old(commits)| + 1 && IsCommit(old(tree), m, approved, commits[|old(commits)|], tree)
      ensures !addFails && commitFails ==>
        (IsLeft(old(tree), m, approved, tree)
         && forall p :: p in tree.staged <==> p in old(tree).staged || IsAdded(old(tree), m, approved, p))
    {
      if addFails {
        return FAILED;
      }
      var added := set p | p in tree.modified + tree.untracked && Selected(m, approved, p);
      tree := Tree(tree.tracked + (added * tree.untracked), tree.staged + added,
                   tree.modified - added, tree.untracked - added);
      if commitFails {
        return FAILED;
      }
      commits := commits + [tree.staged];
      tree := tree.(staged := {});
      return SUCCEEDED;
    }
  }

  // ---------- Scope of the commit ----------

  ghost predicate Approved(approved: seq<string>, p: FilePath) {
    Join(p) in approved
  }

  /** `p` lies in a directory that was approved as a whole, `dir/`. */
  ghost predicate UnderApprovedDirectory(approved: seq<string>, p: FilePath) {
    exists k :: 1 <= k < |p| && Join(p[..k]) + "/" in approved
  }

  /** After a successful preflight of the same tree every committed path is approved, or lies in an
      approved directory; none leaves the repository. */
  lemma CommitStaysInScope(t: Tree, m: Pathspecs, approved: seq<string>, p: FilePath)
    requires IsTree(t) && PreflightPasses(t, approved) && p in CommitContents(t, m, approved)
    ensures Approved(approved, p) || UnderApprovedDirectory(approved, p)
    ensures !LeavesRepository(Join(p))
  {
    FilesStayInside(p);
    if p in t.staged + t.modified {
      assert Join(p) in Status(t);
    } else {
      assert IsFile(p) && ShownUntracked(t, p) in Status(t);
      var d := ShownDepth(t, p, 1);
      if d < |p| { assert Join(p[..d]) + "/" in approved; }
    }
  }

  /** The approved list names some directory of the repository as a whole. */
  ghost predicate NamesDirectory(approved: seq<string>) {
    exists d :: IsFile(d) && Join(d) + "/" in approved
  }

  lemma DirectoryIsNamed(approved: seq<string>, p: FilePath)
    requires IsFile(p)
    ensures UnderApprovedDirectory(approved, p) ==> NamesDirectory(approved)
  {
    if UnderApprovedDirectory(approved, p) {
      var k :| 1 <= k < |p| && Join(p[..k]) + "/" in approved;
      assert IsFile(p[..k]);
    }
  }

  /** Each approved entry names one file, so approved files are no more than the entries. */
  lemma {:induction false} ApprovedAreFew(files: set<FilePath>, approved: seq<string>)
    requires forall p <- files :: IsFile(p) && Approved(approved, p)
    ensures |files| <= |approved|
  {
    if p :| p in files && Join(p) == approved[0] {
      forall q <- files - {p} ensures Approved(approved[1..], q) {
        if Join(q) == approved[0] { JoinIsInjective(p, q); }
      }
      ApprovedAreFew(files - {p}, approved[1..]);
    } else if files != {} {
      forall q <- files ensures Approved(approved[1..], q) { assert Join(q) in approved; }
      ApprovedAreFew(files, approved[1..]);
    }
  }

  /** If no directory is named as a whole, the commit holds no more files than were approved. */
  lemma CommitIsNoLarger(t: Tree, m: Pathspecs, approved: seq<string>)
    requires IsTree(t) && PreflightPasses(t, approved) && !NamesDirectory(approved)
    ensures |CommitContents(t, m, approved)| <= |approved|
  {
    forall p <- CommitContents(t, m, approved) ensures IsFile(p) && Approved(approved, p) {
      CommitStaysInScope(t, m, approved, p);
      DirectoryIsNamed(approved, p);
    }
    ApprovedAreFew(CommitContents(t, m, approved), approved);
  }

  /** Whatever the tree and git's pathspecs, a commit that follows a successful preflight contains
      only approved paths. */
  ghost predicate CommitsOnlyApproved(approved: seq<string>) {
    forall t, m, p :: IsTree(t) && PreflightPasses(t, approved) && p in CommitContents(t, m, approved) ==>
        Approved(approved, p)
  }

  /** The promise is kept exactly for approved lists that name no directory as a whole (or that
      preflight always refuses): git's status shows a wholly untracked directory as one entry. */
  lemma ScopeIsExactIffNoDirectory(approved: seq<string>)
    ensures CommitsOnlyApproved(approved) <==>
            (exists a <- approved :: LeavesRepository(a)) || !NamesDirectory(approved)
  {
    if !NamesDirectory(approved) {
      forall t, m, p | IsTree(t) && PreflightPasses(t, approved) && p in CommitContents(t, m, approved)
        ensures Approved(approved, p)
      {
        CommitStaysInScope(t, m, approved, p);
        DirectoryIsNamed(approved, p);
      }
    } else if forall a <- approved :: !LeavesRepository(a) {
      var d :| IsFile(d) && Join(d) + "/" in approved;
      var t, m, p := DirectoryLeaks(approved, d);
    }
  }

  function Total(approved: seq<string>): nat {
    if approved == [] then 0 else |approved[0]| + Total(approved[1..])
  }

  lemma {:induction false} TotalBounds(approved: seq<string>, a: string)
    requires a in approved
    ensures |a| <= Total(approved)
  {
    if a != approved[0] { TotalBounds(approved[1..], a); }
  }

  /** A name longer than anything approved, so no approved path ends in it. */
  lemma FreshName(approved: seq<string>, d: FilePath) returns (name: string)
    requires d != []
    ensures IsName(name) && !Approved(approved, d + [name])
  {
    name := seq(Total(approved) + 1, _ => 'x');
    assert name[0] == 'x' && '/' !in name;
    JoinAppend(d, name);
    if Approved(approved, d + [name]) { TotalBounds(approved, Join(d + [name])); }
  }

  lemma Sibling(d: FilePath) returns (sibling: FilePath)
    requires IsFile(d)
    ensures IsFile(sibling) && |sibling| == |d| && sibling[..|d| - 1] == d[..|d| - 1] && sibling != d
  {
    var last := d[|d| - 1];
    assert IsName(last);
    assert (last + "y")[|last|] == 'y';
    sibling := d[..|d| - 1] + [last + "y"];
    assert sibling[|d| - 1] != last;
  }

  /** A file in the approved directory that is itself not approved gets committed. */
  lemma DirectoryLeaks(approved: seq<string>, d: FilePath) returns (t: Tree, m: Pathspecs, p: FilePath)
    requires IsFile(d) && Join(d) + "/" in approved && forall a <- approved :: !LeavesRepository(a)
    ensures IsTree(t) && PreflightPasses(t, approved) && p in CommitContents(t, m, approved) && !Approved(approved, p)
  {
    var name := FreshName(approved, d);
    p := d + [name];
    var sibling := Sibling(d);
    t := Tree({sibling}, {}, {}, {p});
    m := (a, q) => true;
    assert |p| == |d| + 1 != |sibling|;
    ShownAsDirectory(t, d, p, sibling);
    assert Status(t) == {Join(d) + "/"};
    assert Selected(m, approved, p) by { assert m(Join(d) + "/", p); }
  }

  lemma ShownAsDirectory(t: Tree, d: FilePath, p: FilePath, sibling: FilePath)
    requires d != [] && |p| == |d| + 1 && p[..|d|] == d && t.tracked == {sibling}
    requires |sibling| == |d| && sibling[..|d| - 1] == d[..|d| - 1] && sibling != d
    ensures ShownUntracked(t, p) == Join(d) + "/"
  {
    assert !HasTrackedUnder(t, p[..|d|]);
    forall k | 1 <= k < |d| ensures HasTrackedUnder(t, p[..k]) {
      assert p[..k] == sibling[..|d| - 1][..k];
      assert sibling in t.tracked && p[..k] <= sibling;
    }
  }

  /** The first two calls of a publication, on a repository nothing else touches in between. */
  method PreflightThenCommit(repo: Repository, approved: seq<string>, m: Pathspecs, shown: set<string>,
                             gitFails: bool, addFails: bool, commitFails: bool)
    requires repo.Valid() && shown == Status(repo.tree)
    modifies repo
    ensures repo.Valid()
    ensures || repo.commits == old(repo.commits)
            || (|repo.commits| == |old(repo.commits)| + 1
                && repo.commits[..|old(repo.commits)|] == old(repo.commits))
    ensures |repo.commits| > |old(repo.commits)| ==>
      forall p <- repo.commits[|old(repo.commits)|] :: Approved(approved, p) || UnderApprovedDirectory(approved, p)
  {
    var before := repo.tree;
    var preflight := repo.Preflight(approved, gitFails, shown);
    if preflight == SUCCEEDED {
      var commit := repo.Commit(approved, m, addFails, commitFails);
      forall p | p in CommitContents(before, m, approved)
        ensures Approved(approved, p) || UnderApprovedDirectory(approved, p)
      {
        CommitStaysInScope(before, m, approved, p);
      }
    }
  }
}
