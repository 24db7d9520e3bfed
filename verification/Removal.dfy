/**
 A remote deletion applied to the local tree (`applyRemoval`, `removeIfSynced`):
 the walk is decided in reverse, and what is left is the recursive prune of the
 subtree: the kept files, the foreign subtrees, and their ancestors.
 */
module Removal {
  import opened Options
  import opened Paths

  type Content = string

  /** A file is a placeholder when the mount is lazy and the marker is on it: it holds nothing local. */
  datatype Node = Dir | File(content: Content, placeholder: bool) | Special

  type Tree = map<Path, Node>

  /** A baseline, by the content it stands for. */
  datatype Baseline = Baseline(content: Content, at: nat)

  /** What this mount does not decide: other drivels' trees, and paths it does not sync. */
  datatype Limits = Limits(foreign: set<Path>, unsynced: set<Path>)

  predicate Strictly(p: Path, q: Path) { p != q && Inside(p, q) }

  predicate IsForeign(lim: Limits, rel: Path, p: Path) {
    exists f :: f in lim.foreign && Strictly(f, rel) && Inside(p, f)
  }

  /** The file holds what was last synced there, or nothing local at all. */
  predicate Deletable(n: Node, echo: Option<Baseline>)
    requires !n.Dir?
  {
    n.File? && (n.placeholder || (echo.Some? && n.content == echo.value.content))
  }

  function Get(m: map<Path, Baseline>, p: Path): Option<Baseline> { if p in m then Some(m[p]) else None }

  // ------------------------------------------------------------ the prune

  /** Kept for its own sake: a file with work in it, or anything in a foreign tree. */
  predicate Stays(tree: Tree, echo: map<Path, Baseline>, lim: Limits, rel: Path, p: Path)
    requires p in tree
  {
    IsForeign(lim, rel, p) || (!tree[p].Dir? && !Deletable(tree[p], Get(echo, p)))
  }

  /** What survives the removal of rel: what stays, and every directory above it. */
  ghost predicate Survives(tree: Tree, echo: map<Path, Baseline>, lim: Limits, rel: Path, p: Path) {
    exists q :: q in tree && Inside(q, p) && Inside(q, rel) && Stays(tree, echo, lim, rel, q)
  }

  ghost function Removed(tree: Tree, echo: map<Path, Baseline>, lim: Limits, rel: Path): set<Path> {
    set p | p in tree && Inside(p, rel) && !Survives(tree, echo, lim, rel, p)
  }

  /** The kept files whose stale baseline goes with the deletion, to be pushed back. */
  ghost function Repushed(tree: Tree, echo: map<Path, Baseline>, lim: Limits, rel: Path): set<Path> {
    set p | p in tree && Inside(p, rel) && !IsForeign(lim, rel, p) && p !in lim.unsynced &&
            tree[p].File? && !Deletable(tree[p], Get(echo, p))
  }

  /** A tree in which everything's ancestors are directories. */
  ghost predicate WellFormed(tree: Tree) {
    forall p, q :: p in tree && q in tree && Strictly(q, p) ==> tree[p].Dir?
  }

  /** What WalkDir visits below rel, parents first: everything but the foreign subtrees. */
  ghost predicate IsWalk(tree: Tree, lim: Limits, rel: Path, paths: seq<Path>) {
    && (forall p :: p in paths <==> p in tree && Inside(p, rel) && !IsForeign(lim, rel, p))
    && (forall i, j :: 0 <= i < j < |paths| ==> paths[i] != paths[j] && !Inside(paths[i], paths[j]))
  }

  lemma InsideTrans(a: Path, b: Path, c: Path)
    requires Inside(a, b) && Inside(b, c)
    ensures Inside(a, c)
  {
    InsideSplit(a, b);
    InsideSplit(b, c);
    if a != b && b != c {
      assert a[..|c| + 1] == (a[..|b|])[..|c| + 1] == b[..|c| + 1] == c + "/";
    }
  }

  /** A file survives exactly by staying; a directory, exactly by something surviving in it. */
  lemma SurvivesIsRecursive(tree: Tree, echo: map<Path, Baseline>, lim: Limits, rel: Path, p: Path)
    requires WellFormed(tree) && p in tree && Inside(p, rel)
    ensures Survives(tree, echo, lim, rel, p) <==>
      Stays(tree, echo, lim, rel, p) ||
      (tree[p].Dir? && exists q :: q in tree && Strictly(q, p) && Survives(tree, echo, lim, rel, q))
  {
    if Stays(tree, echo, lim, rel, p) {
      assert Inside(p, p);
    } else if Survives(tree, echo, lim, rel, p) {
      var q :| q in tree && Inside(q, p) && Inside(q, rel) && Stays(tree, echo, lim, rel, q);
      assert Inside(q, q) && Survives(tree, echo, lim, rel, q);
      assert Strictly(q, p);
    } else if tree[p].Dir? && exists q :: q in tree && Strictly(q, p) && Survives(tree, echo, lim, rel, q) {
      var q :| q in tree && Strictly(q, p) && Survives(tree, echo, lim, rel, q);
      var r :| r in tree && Inside(r, q) && Inside(r, rel) && Stays(tree, echo, lim, rel, r);
      InsideTrans(r, q, p);
    }
  }

  /** The members of s among the paths from i on. */
  ghost function Walked(paths: seq<Path>, i: nat, s: set<Path>): set<Path>
    requires i <= |paths|
  {
    set p | p in paths[i..] && p in s
  }

  lemma WalkedStep(paths: seq<Path>, i: nat, s: set<Path>)
    requires i < |paths| && forall j, k :: 0 <= j < k < |paths| ==> paths[j] != paths[k]
    ensures Walked(paths, i, s) == Walked(paths, i + 1, s) + (if paths[i] in s then {paths[i]} else {})
    ensures paths[i] !in Walked(paths, i + 1, s)
  {
    assert paths[i..] == [paths[i]] + paths[i + 1..];
  }

  class Remover {
    var tree: Tree
    var echo: map<Path, Baseline>
    var forget: set<Path>
    const lim: Limits

    constructor (tree: Tree, echo: map<Path, Baseline>, lim: Limits, forget: set<Path>)
      ensures this.tree == tree && this.echo == echo && this.lim == lim && this.forget == forget
    {
      this.tree, this.echo, this.lim, this.forget := tree, echo, lim, forget;
    }

    /** Deletes the file at rel if it holds nothing but what was synced; else keeps it and drops its baseline. */
    method RemoveIfSynced(rel: Path) returns (gone: bool)
      requires rel in tree && !tree[rel].Dir?
      modifies this
      ensures gone <==> Deletable(old(tree)[rel], Get(old(echo), rel))
      ensures gone ==> tree == old(tree) - {rel} && echo == old(echo) && forget == old(forget) + {rel}
      ensures !gone ==> tree == old(tree)
      ensures !gone && old(tree)[rel].File? && rel !in lim.unsynced ==>
                echo == old(echo) - {rel} && forget == old(forget) - {rel}
      ensures !gone && !(old(tree)[rel].File? && rel !in lim.unsynced) ==> echo == old(echo) && forget == old(forget)
    {
      var n := tree[rel];
      if n.File? && n.placeholder {
        tree, forget := tree - {rel}, forget + {rel};
        return true;
      }
      if n.File? && rel in echo && n.content == echo[rel].content {
        tree, forget := tree - {rel}, forget + {rel};
        return true;
      }
      if !n.File? || rel in lim.unsynced { return false; }
      forget := forget - {rel};
      echo := echo - {rel};
      gone := false;
    }

    /** os.Remove of a directory: it goes exactly if nothing is in it. */
    method RemoveEmptyDir(p: Path) returns (gone: bool)
      requires p in tree && tree[p].Dir?
      modifies this
      ensures gone <==> !(exists q :: q in old(tree) && Strictly(q, p))
      ensures gone ==> tree == old(tree) - {p} && forget == old(forget) + {p} && echo == old(echo)
      ensures !gone ==> tree == old(tree) && forget == old(forget) && echo == old(echo)
    {
      if exists q :: q in tree && Strictly(q, p) { return false; }
      tree, forget := tree - {p}, forget + {p};
      gone := true;
    }

    method ApplyRemoval(rel: Path, paths: seq<Path>) returns (kept: nat)
      requires WellFormed(tree) && IsWalk(tree, lim, rel, paths)
      modifies this
      ensures rel !in old(tree) ==> tree == old(tree) && echo == old(echo) && forget == old(forget) + {rel}
      ensures rel in old(tree) ==>
        && tree == old(tree) - Removed(old(tree), old(echo), lim, rel)
        && echo == old(echo) - Repushed(old(tree), old(echo), lim, rel)
        && forget == old(forget) + Removed(old(tree), old(echo), lim, rel) - Repushed(old(tree), old(echo), lim, rel)
    {
      kept := 0;
      if rel !in tree {
        forget := forget + {rel};
        return;
      }
      if !tree[rel].Dir? {
        FileAlone(tree, echo, lim, rel);
        var gone := RemoveIfSynced(rel);
        if !gone { kept := 1; }
        return;
      }
      ghost var was, base := tree, echo;
      var i := |paths|;
      while i > 0
        invariant 0 <= i <= |paths|
        invariant DecidedFrom(was, base, old(forget), rel, paths, i)
      {
        i := i - 1;
        assert paths[i] in paths;
        DecidedInTree(was, base, lim, rel, paths, i);
        if tree[paths[i]].Dir? {
          DecideDir(rel, paths, i, was, base, old(forget));
        } else {
          var gone := DecideFile(rel, paths, i, was, base, old(forget));
          if !gone { kept := kept + 1; }
        }
      }
      WholeWalk(was, base, lim, rel, paths);
    }

    /** The walk's paths from i on have been decided, and no others. */
    ghost predicate DecidedFrom(was: Tree, base: map<Path, Baseline>, forget0: set<Path>, rel: Path, paths: seq<Path>, i: nat)
      requires i <= |paths|
      reads this
    {
      && tree == was - Walked(paths, i, Removed(was, base, lim, rel))
      && echo == base - Walked(paths, i, Repushed(was, base, lim, rel))
      && forget == forget0 + Walked(paths, i, Removed(was, base, lim, rel)) - Walked(paths, i, Repushed(was, base, lim, rel))
    }

    method DecideDir(rel: Path, paths: seq<Path>, i: nat, ghost was: Tree, ghost base: map<Path, Baseline>, ghost forget0: set<Path>)
      requires WellFormed(was) && IsWalk(was, lim, rel, paths) && i < |paths| && paths[i] in tree && tree[paths[i]].Dir?
      requires DecidedFrom(was, base, forget0, rel, paths, i + 1)
      modifies this
      ensures DecidedFrom(was, base, forget0, rel, paths, i)
    {
      WalkedStep(paths, i, Removed(was, base, lim, rel));
      WalkedStep(paths, i, Repushed(was, base, lim, rel));
      DirDecision(was, base, lim, rel, paths, i, tree);
      var _ := RemoveEmptyDir(paths[i]);
    }

    method DecideFile(rel: Path, paths: seq<Path>, i: nat, ghost was: Tree, ghost base: map<Path, Baseline>, ghost forget0: set<Path>)
      returns (gone: bool)
      requires WellFormed(was) && IsWalk(was, lim, rel, paths) && i < |paths| && paths[i] in tree && !tree[paths[i]].Dir?
      requires DecidedFrom(was, base, forget0, rel, paths, i + 1)
      modifies this
      ensures DecidedFrom(was, base, forget0, rel, paths, i)
    {
      ghost var removed, repushed := Removed(was, base, lim, rel), Repushed(was, base, lim, rel);
      WalkedStep(paths, i, removed);
      WalkedStep(paths, i, repushed);
      assert paths[i] in paths;
      FileDecision(was, base, lim, rel, paths[i]);
      assert Get(echo, paths[i]) == Get(base, paths[i]);
      gone := RemoveIfSynced(paths[i]);
      NotBoth(was, base, lim, rel, paths, i + 1);
    }
  }

  lemma NotBoth(tree: Tree, echo: map<Path, Baseline>, lim: Limits, rel: Path, paths: seq<Path>, i: nat)
    requires WellFormed(tree) && i <= |paths|
    ensures Walked(paths, i, Removed(tree, echo, lim, rel)) !! Walked(paths, i, Repushed(tree, echo, lim, rel))
  {
    forall p | p in Removed(tree, echo, lim, rel) && p in Repushed(tree, echo, lim, rel) ensures false {
      FileDecision(tree, echo, lim, rel, p);
    }
  }

  /** What has not been decided yet is still in the tree, as it was. */
  lemma DecidedInTree(tree: Tree, echo: map<Path, Baseline>, lim: Limits, rel: Path, paths: seq<Path>, i: nat)
    requires IsWalk(tree, lim, rel, paths) && i < |paths|
    ensures paths[i] in tree && paths[i] in tree - Walked(paths, i + 1, Removed(tree, echo, lim, rel))
  {
    assert paths[i] in paths;
    WalkedStep(paths, i, Removed(tree, echo, lim, rel));
  }

  /** A single file: removed exactly when it is deletable. */
  lemma FileAlone(tree: Tree, echo: map<Path, Baseline>, lim: Limits, rel: Path)
    requires WellFormed(tree) && rel in tree && !tree[rel].Dir?
    ensures Removed(tree, echo, lim, rel) == if Deletable(tree[rel], Get(echo, rel)) then {rel} else {}
    ensures Repushed(tree, echo, lim, rel) ==
      if !Deletable(tree[rel], Get(echo, rel)) && tree[rel].File? && rel !in lim.unsynced then {rel} else {}
  {
    forall p | p in tree && Inside(p, rel) ensures p == rel { assert Strictly(p, rel) <==> p != rel; }
    assert !IsForeign(lim, rel, rel) by {
      if IsForeign(lim, rel, rel) {
        var f :| f in lim.foreign && Strictly(f, rel) && Inside(rel, f);
        InsideSplit(f, rel);
        InsideSplit(rel, f);
      }
    }
    SurvivesIsRecursive(tree, echo, lim, rel, rel);
    assert Inside(rel, rel);
  }

  lemma FileDecision(tree: Tree, echo: map<Path, Baseline>, lim: Limits, rel: Path, p: Path)
    requires WellFormed(tree) && p in tree && Inside(p, rel) && !IsForeign(lim, rel, p) && !tree[p].Dir?
    ensures p in Removed(tree, echo, lim, rel) <==> Deletable(tree[p], Get(echo, p))
    ensures p in Repushed(tree, echo, lim, rel) <==>
      !Deletable(tree[p], Get(echo, p)) && tree[p].File? && p !in lim.unsynced
  {
    SurvivesIsRecursive(tree, echo, lim, rel, p);
  }

  /** With everything below it decided, a directory is empty exactly when nothing in it survives. */
  lemma DirDecision(was: Tree, echo: map<Path, Baseline>, lim: Limits, rel: Path, paths: seq<Path>, i: nat, now: Tree)
    requires WellFormed(was) && IsWalk(was, lim, rel, paths) && i < |paths| && was[paths[i]].Dir?
    requires now == was - Walked(paths, i + 1, Removed(was, echo, lim, rel))
    ensures paths[i] in Removed(was, echo, lim, rel) <==> !(exists q :: q in now && Strictly(q, paths[i]))
  {
    var p := paths[i];
    assert p in paths && Inside(p, rel);
    SurvivesIsRecursive(was, echo, lim, rel, p);
    if Survives(was, echo, lim, rel, p) {
      var q :| q in was && Strictly(q, p) && Survives(was, echo, lim, rel, q);
      assert q in now;
    } else {
      forall q | q in was && Strictly(q, p) ensures q !in now {
        InsideTrans(q, p, rel);
        assert !Survives(was, echo, lim, rel, q);
        assert Inside(q, q);
        assert !Stays(was, echo, lim, rel, q);
        var j :| 0 <= j < |paths| && paths[j] == q;
        assert j > i;
        assert paths[i + 1..][j - (i + 1)] == q;
      }
    }
  }

  /** Everything removed or re-pushed was walked. */
  lemma WholeWalk(tree: Tree, echo: map<Path, Baseline>, lim: Limits, rel: Path, paths: seq<Path>)
    requires IsWalk(tree, lim, rel, paths)
    ensures Walked(paths, 0, Removed(tree, echo, lim, rel)) == Removed(tree, echo, lim, rel)
    ensures Walked(paths, 0, Repushed(tree, echo, lim, rel)) == Repushed(tree, echo, lim, rel)
  {
    assert paths[0..] == paths;
    forall p | p in Removed(tree, echo, lim, rel) ensures p in paths {
      if IsForeign(lim, rel, p) { assert Stays(tree, echo, lim, rel, p) && Inside(p, p); }
    }
  }

  /** No unsynced work is deleted: every file that goes is a placeholder or its baseline. */
  lemma OnlySyncedGoes(tree: Tree, echo: map<Path, Baseline>, lim: Limits, rel: Path, p: Path)
    requires p in Removed(tree, echo, lim, rel)
    ensures !IsForeign(lim, rel, p)
    ensures !tree[p].Dir? ==> Deletable(tree[p], Get(echo, p))
    ensures forall q :: q in tree && Inside(q, p) && Inside(q, rel) ==> q in Removed(tree, echo, lim, rel)
  {
    assert Inside(p, p);
    assert !Stays(tree, echo, lim, rel, p);
    forall q | q in tree && Inside(q, p) && Inside(q, rel) ensures q in Removed(tree, echo, lim, rel) {
      if Survives(tree, echo, lim, rel, q) {
        var r :| r in tree && Inside(r, q) && Inside(r, rel) && Stays(tree, echo, lim, rel, r);
        InsideTrans(r, q, p);
        assert Survives(tree, echo, lim, rel, p);
      }
    }
  }

  /** The removal leaves a tree: nothing that is left has lost a directory above it. */
  lemma PruneLeavesTree(tree: Tree, echo: map<Path, Baseline>, lim: Limits, rel: Path, p: Path, q: Path)
    requires p in tree && q in tree && Inside(q, p) && Inside(p, rel)
    requires q !in Removed(tree, echo, lim, rel)
    ensures p !in Removed(tree, echo, lim, rel)
  {
    InsideTrans(q, p, rel);
    if p in Removed(tree, echo, lim, rel) { OnlySyncedGoes(tree, echo, lim, rel, p); }
  }
}
