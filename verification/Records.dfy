/**
 The sync-state store: per-path records in several buckets, each operation one
 transaction over them, and the re-keying of a whole subtree when it moves.
 */
module Records {
  import opened Options
  import opened Paths
  import opened Buckets

  datatype Echo = Echo(hash: string, version: string, at: int)

  datatype Tombstone = Tombstone(echo: Echo, deleted: int)

  /** Everything recorded, as plain maps. */
  datatype Contents = Contents(
    echo: map<Path, Echo>, hydration: map<Path, string>, repair: map<Path, int>, refetch: map<Path, int>,
    tomb: map<Path, Tombstone>, kept: map<Path, string>, seen: map<string, bool>)

  ghost function SubtreeKeys<V>(rows: map<Path, V>, path: Path): set<Path> { set k | k in rows && Inside(k, path) }

  /** collectSubtree: the row at path and the rows beneath it, by a seek and a walk. */
  method CollectSubtree<V>(b: Bucket<V>, path: Path) returns (found: seq<Path>)
    requires b.Valid()
    ensures forall k :: k in found <==> k in b.rows && Inside(k, path)
    ensures forall i, j :: 0 <= i < j < |found| ==> found[i] != found[j]
    ensures |found| == |SubtreeKeys(b.rows, path)|
  {
    var below := b.Scan(path + "/");
    forall i, j | 0 <= i < j < |below| ensures below[i] != below[j] { LessIrreflexive(below[i]); }
    assert path !in below;
    found := if path in b.rows then [path] + below else below;
    DistinctSize(found, SubtreeKeys(b.rows, path));
  }

  lemma {:induction false} DistinctSize(s: seq<Path>, elems: set<Path>)
    requires forall i, j :: 0 <= i < j < |s| ==> s[i] != s[j]
    requires forall k :: k in elems <==> k in s
    ensures |s| == |elems|
  {
    if s == [] {
      assert elems == {};
    } else {
      assert s[0] in elems && s[0] !in s[1..];
      DistinctSize(s[1..], elems - {s[0]});
    }
  }

  method DeleteAll<V>(b: Bucket<V>, found: seq<Path>) returns (r: Bucket<V>)
    requires b.Valid()
    ensures r.Valid() && r.rows == b.rows - KeysOf(found)
  {
    r := b;
    for i := 0 to |found|
      invariant r.Valid() && r.rows == b.rows - KeysOf(found[..i])
    {
      KeysOfStep(found, i);
      r := r.Delete(found[i]);
    }
    assert found[..|found|] == found;
  }

  /** Every collected row put under its new key; the values are those the scan read. */
  method PutMoved<V>(b: Bucket<V>, rest: Bucket<V>, found: seq<Path>, from: Path, to: Path) returns (r: Bucket<V>)
    requires rest.Valid() && forall k :: k in found ==> k in b.rows && Inside(k, from)
    ensures r.Valid() && KeysOf(found) <= b.rows.Keys
    ensures r.rows == PartlyMoved(rest.rows, b.rows, KeysOf(found), from, to)
  {
    r := rest;
    for i := 0 to |found|
      invariant r.Valid() && KeysOf(found[..i]) <= b.rows.Keys
      invariant r.rows == PartlyMoved(rest.rows, b.rows, KeysOf(found[..i]), from, to)
    {
      KeysOfStep(found, i);
      PartlyMovedStep(rest.rows, b.rows, KeysOf(found[..i]), found[i], from, to);
      r := r.Put(to + found[i][|from|..], b.rows[found[i]]);
    }
    assert found[..|found|] == found;
  }

  /** One bucket's part of RenameSubtree: collect, then delete, then write. */
  method RenameBucket<V>(b: Bucket<V>, from: Path, to: Path) returns (r: Bucket<V>, moved: nat)
    requires b.Valid() && Renamable(from, to)
    ensures r.Valid() && r.rows == Rekey(b.rows, from, to) && moved == |SubtreeKeys(b.rows, from)|
  {
    var found := CollectSubtree(b, from);
    assert KeysOf(found) == SubtreeKeys(b.rows, from);
    r := DeleteAll(b, found);
    r := PutMoved(b, r, found, from, to);
    moved := |found|;
    AllMoved(b.rows, KeysOf(found), from, to);
  }

  method MarkAll(b: Bucket<bool>, gen: string, paths: seq<Path>) returns (r: Bucket<bool>)
    requires b.Valid()
    ensures r.Valid() && r.rows == b.rows + Marks(gen, paths)
  {
    r := b;
    assert paths[..0] == [];
    NoMarks(b.rows, gen);
    for i := 0 to |paths|
      invariant r.Valid() && r.rows == b.rows + Marks(gen, paths[..i])
    {
      MarksStep(b.rows, gen, paths, i);
      r := r.Put(SeenKey(gen, paths[i]), true);
    }
    assert paths[..|paths|] == paths;
  }

  class Store {
    var echo: Bucket<Echo>
    var hydration: Bucket<string>
    var repair: Bucket<int>
    var refetch: Bucket<int>
    var tomb: Bucket<Tombstone>
    var kept: Bucket<string>
    var seen: Bucket<bool>
    var commits: nat

    ghost predicate Valid()
      reads this
    {
      echo.Valid() && hydration.Valid() && repair.Valid() && refetch.Valid() && tomb.Valid() && kept.Valid() && seen.Valid()
    }

    ghost function View(): Contents
      reads this
    {
      Contents(echo.rows, hydration.rows, repair.rows, refetch.rows, tomb.rows, kept.rows, seen.rows)
    }

    constructor ()
      ensures Valid() && View() == Contents(map[], map[], map[], map[], map[], map[], map[]) && commits == 0
    {
      echo, hydration, repair, refetch := Empty(), Empty(), Empty(), Empty();
      tomb, kept, seen, commits := Empty(), Empty(), Empty(), 0;
    }

    method SetEcho(path: Path, e: Echo)
      requires Valid()
      modifies this
      ensures Valid() && commits == old(commits) + 1 && View() == EchoSet(old(View()), path, e)
      ensures echo.rows == old(echo.rows)[path := e] && tomb.rows == old(tomb.rows) - {path}
      ensures refetch.rows == old(refetch.rows) - {path} && kept.rows == old(kept.rows) - {path}
      ensures hydration == old(hydration) && repair == old(repair) && seen == old(seen)
    {
      tomb := tomb.Delete(path);
      refetch := refetch.Delete(path);
      kept := kept.Delete(path);
      echo := echo.Put(path, e);
      commits := commits + 1;
    }

    method ForgetMany(paths: seq<Path>)
      requires Valid()
      modifies this
      ensures Valid() && commits == old(commits) + (if paths == [] then 0 else 1)
      ensures View() == Forgotten(old(View()), KeysOf(paths))
      ensures echo.rows == old(echo.rows) - KeysOf(paths) && hydration.rows == old(hydration.rows) - KeysOf(paths)
      ensures tomb.rows == old(tomb.rows) - KeysOf(paths) && refetch.rows == old(refetch.rows) - KeysOf(paths)
      ensures kept.rows == old(kept.rows) - KeysOf(paths) && repair.rows == old(repair.rows) && seen.rows == old(seen.rows)
    {
      if paths == [] {
        ForgetNothing(View());
        return;
      }
      ForgetNothing(View());
      for i := 0 to |paths|
        invariant Valid() && commits == old(commits)
        invariant View() == Forgotten(old(View()), KeysOf(paths[..i]))
      {
        KeysOfStep(paths, i);
        ForgetOneMore(old(View()), KeysOf(paths[..i]), paths[i]);
        DropAll(paths[i]);
      }
      assert paths[..|paths|] == paths;
      commits := commits + 1;
    }

    /** Everything recorded of one path, in every bucket a deletion clears. */
    method DropAll(p: Path)
      requires Valid()
      modifies this`echo, this`hydration, this`tomb, this`refetch, this`kept
      ensures Valid() && View() == old(View()).(
        echo := old(echo.rows) - {p}, hydration := old(hydration.rows) - {p}, tomb := old(tomb.rows) - {p},
        refetch := old(refetch.rows) - {p}, kept := old(kept.rows) - {p})
    {
      echo := echo.Delete(p);
      hydration := hydration.Delete(p);
      tomb := tomb.Delete(p);
      refetch := refetch.Delete(p);
      kept := kept.Delete(p);
    }

    method ForgetDeleted(path: Path, t: Tombstone)
      requires Valid()
      modifies this
      ensures Valid() && commits == old(commits) + 1 && View() == Deleted(old(View()), path, t)
      ensures tomb.rows == old(tomb.rows)[path := t] && echo.rows == old(echo.rows) - {path}
      ensures hydration.rows == old(hydration.rows) - {path} && refetch.rows == old(refetch.rows) - {path}
      ensures repair == old(repair) && kept == old(kept) && seen == old(seen)
    {
      echo := echo.Delete(path);
      hydration := hydration.Delete(path);
      refetch := refetch.Delete(path);
      tomb := tomb.Put(path, t);
      commits := commits + 1;
    }

    /** The first time a path is owed is kept, and owing it again costs nothing. */
    method OweRefetch(path: Path, at: int)
      requires Valid()
      modifies this
      ensures Valid()
      ensures path == "" || path in old(refetch).rows ==> View() == old(View()) && commits == old(commits)
      ensures path != "" && path !in old(refetch).rows ==>
        View() == old(View()).(refetch := old(refetch).rows[path := at]) && commits == old(commits) + 1
    {
      if path == "" || path in refetch.rows { return; }
      refetch := refetch.Put(path, at);
      commits := commits + 1;
    }

    method ClearRefetch(path: Path)
      requires Valid()
      modifies this
      ensures Valid() && View() == old(View()).(refetch := old(refetch).rows - {path})
      ensures commits == old(commits) + (if path in old(refetch).rows then 1 else 0)
    {
      if path !in refetch.rows {
        assert refetch.rows - {path} == refetch.rows;
        return;
      }
      refetch := refetch.Delete(path);
      commits := commits + 1;
    }

    method SetKept(path: Path, identity: string)
      requires Valid()
      modifies this
      ensures Valid() && View() == old(View()).(kept := old(kept).rows[path := identity])
      ensures commits == old(commits) + (if old(kept).Get(path) == Some(identity) then 0 else 1)
    {
      if kept.Get(path) == Some(identity) {
        assert kept.rows[path := identity] == kept.rows;
        return;
      }
      kept := kept.Put(path, identity);
      commits := commits + 1;
    }

    /** RenameSubtree: four buckets re-keyed in one commit, or nothing touched at no commit. */
    method RenameSubtree(from: Path, to: Path) returns (moved: nat)
      requires Valid()
      modifies this
      ensures Valid() && View() == SubtreeRenamed(old(View()), from, to)
      ensures !Renamable(from, to) ==> View() == old(View())
      ensures Renamable(from, to) ==> RowsMoved(old(echo.rows), echo.rows, from, to)
      ensures Renamable(from, to) ==> RowsMoved(old(hydration.rows), hydration.rows, from, to)
      ensures Renamable(from, to) ==> RowsMoved(old(repair.rows), repair.rows, from, to)
      ensures Renamable(from, to) ==> RowsMoved(old(refetch.rows), refetch.rows, from, to)
      ensures tomb.rows == old(tomb.rows) && kept.rows == old(kept.rows) && seen.rows == old(seen.rows)
      ensures moved == if Renamable(from, to) then SubtreeSize(old(View()), from) else 0
      ensures commits == old(commits) + (if moved > 0 then 1 else 0)
    {
      if !Renamable(from, to) { return 0; }
      ghost var was := View();
      SubtreeMoves(was, from, to);
      var n := CountSubtree(from, to);
      if n == 0 { return 0; }
      moved := MoveBuckets(from, to);
      commits := commits + 1;
      assert View() == SubtreeRenamed(was, from, to);
    }

    /** The read transaction that asks first. */
    method CountSubtree(from: Path, ghost to: Path) returns (n: nat)
      requires Valid() && Renamable(from, to)
      ensures n == SubtreeSize(View(), from)
      ensures n == 0 ==> SubtreeRenamed(View(), from, to) == View()
    {
      var e := CollectSubtree(echo, from);
      var h := CollectSubtree(hydration, from);
      var p := CollectSubtree(repair, from);
      var f := CollectSubtree(refetch, from);
      n := |e| + |h| + |p| + |f|;
      if n == 0 {
        NothingToMove(echo.rows, from, to);
        NothingToMove(hydration.rows, from, to);
        NothingToMove(repair.rows, from, to);
        NothingToMove(refetch.rows, from, to);
      }
    }

    method MoveBuckets(from: Path, to: Path) returns (moved: nat)
      requires Valid() && Renamable(from, to)
      modifies this
      ensures Valid() && View() == SubtreeRenamed(old(View()), from, to) && moved == SubtreeSize(old(View()), from)
      ensures commits == old(commits)
    {
      var n1, n2, n3, n4;
      echo, n1 := RenameBucket(echo, from, to);
      hydration, n2 := RenameBucket(hydration, from, to);
      repair, n3 := RenameBucket(repair, from, to);
      refetch, n4 := RenameBucket(refetch, from, to);
      moved := n1 + n2 + n3 + n4;
    }

    /** MarkSeen: a page's paths marked for a generation, in one commit. */
    method MarkSeen(gen: string, paths: seq<Path>)
      requires Valid()
      modifies this
      ensures Valid()
      ensures gen == "" || paths == [] ==> View() == old(View()) && commits == old(commits)
      ensures gen != "" && paths != [] ==> commits == old(commits) + 1
      ensures gen != "" ==> View() == old(View()).(seen := old(seen).rows + Marks(gen, paths))
    {
      NoMarks(seen.rows, gen);
      if gen == "" || paths == [] { return; }
      seen := MarkAll(seen, gen, paths);
      commits := commits + 1;
    }

    /** EachSeenUnder: what this generation saw strictly below dir, each path once. */
    method EachSeenUnder(gen: string, dir: Path) returns (paths: seq<Path>)
      requires Valid()
      ensures gen == "" ==> paths == []
      ensures gen != "" ==> forall p :: p in paths <==> SeenKey(gen, p) in seen.rows && HasPrefix(p, Below(dir))
      ensures forall i, j :: 0 <= i < j < |paths| ==> paths[i] != paths[j]
    {
      paths := [];
      if gen == "" { return; }
      var found := seen.Scan(SeenKey(gen, Below(dir)));
      paths := StripGeneration(gen, Below(dir), found);
      SeenExactly(seen.rows.Keys, gen, Below(dir), found, paths);
      forall a, b | 0 <= a < b < |paths| ensures paths[a] != paths[b] { LessIrreflexive(found[a]); }
    }

    method StripGeneration(gen: string, below: string, found: seq<string>) returns (paths: seq<Path>)
      requires forall k :: k in found ==> HasPrefix(k, SeenKey(gen, below))
      ensures |paths| == |found|
      ensures forall j :: 0 <= j < |found| ==> found[j] == SeenKey(gen, paths[j]) && HasPrefix(paths[j], below)
    {
      paths := [];
      for i := 0 to |found|
        invariant |paths| == i
        invariant forall j :: 0 <= j < i ==> found[j] == SeenKey(gen, paths[j]) && HasPrefix(paths[j], below)
      {
        SeenSuffix(gen, below, found[i]);
        paths := paths + [found[i][|gen| + 1..]];
      }
    }
  }

  /** What a listing below dir has in front of every path it wants: nothing, for the root. */
  function Below(dir: Path): string { if dir == "" then "" else dir + "/" }

  lemma SeenExactly(keys: set<string>, gen: string, below: string, found: seq<string>, paths: seq<Path>)
    requires forall k :: k in found <==> k in keys && HasPrefix(k, SeenKey(gen, below))
    requires |paths| == |found|
    requires forall j :: 0 <= j < |found| ==> found[j] == SeenKey(gen, paths[j]) && HasPrefix(paths[j], below)
    ensures forall p :: p in paths <==> SeenKey(gen, p) in keys && HasPrefix(p, below)
  {
    forall p ensures p in paths <==> SeenKey(gen, p) in keys && HasPrefix(p, below) {
      if p in paths {
        var j :| 0 <= j < |paths| && paths[j] == p;
        assert found[j] in found;
      }
      if SeenKey(gen, p) in keys && HasPrefix(p, below) {
        SeenPrefix(gen, below, p);
        var j :| 0 <= j < |found| && found[j] == SeenKey(gen, p);
        assert SeenKey(gen, paths[j])[|gen| + 1..] == paths[j] && SeenKey(gen, p)[|gen| + 1..] == p;
      }
    }
  }

  // ------------------------------------------------------------ what the operations are

  function EchoSet(c: Contents, path: Path, e: Echo): Contents {
    c.(echo := c.echo[path := e], tomb := c.tomb - {path}, refetch := c.refetch - {path}, kept := c.kept - {path})
  }

  function Forgotten(c: Contents, paths: set<Path>): Contents {
    c.(echo := c.echo - paths, hydration := c.hydration - paths, tomb := c.tomb - paths,
       refetch := c.refetch - paths, kept := c.kept - paths)
  }

  function Deleted(c: Contents, path: Path, t: Tombstone): Contents {
    c.(echo := c.echo - {path}, hydration := c.hydration - {path}, refetch := c.refetch - {path}, tomb := c.tomb[path := t])
  }

  function SubtreeRenamed(c: Contents, from: Path, to: Path): Contents {
    if !Renamable(from, to) then c
    else c.(echo := Rekey(c.echo, from, to), hydration := Rekey(c.hydration, from, to),
            repair := Rekey(c.repair, from, to), refetch := Rekey(c.refetch, from, to))
  }

  /** All four buckets that follow a rename. */
  ghost predicate BucketsMoved(c: Contents, c': Contents, from: Path, to: Path) {
    && RowsMoved(c.echo, c'.echo, from, to) && RowsMoved(c.hydration, c'.hydration, from, to)
    && RowsMoved(c.repair, c'.repair, from, to) && RowsMoved(c.refetch, c'.refetch, from, to)
    && c'.tomb == c.tomb && c'.kept == c.kept && c'.seen == c.seen
  }

  lemma SubtreeMoves(c: Contents, from: Path, to: Path)
    requires Renamable(from, to)
    ensures BucketsMoved(c, SubtreeRenamed(c, from, to), from, to)
  {
    RekeyMovesRows(c.echo, from, to);
    RekeyMovesRows(c.hydration, from, to);
    RekeyMovesRows(c.repair, from, to);
    RekeyMovesRows(c.refetch, from, to);
  }

  ghost function SubtreeSize(c: Contents, from: Path): nat {
    |SubtreeKeys(c.echo, from)| + |SubtreeKeys(c.hydration, from)| + |SubtreeKeys(c.repair, from)| + |SubtreeKeys(c.refetch, from)|
  }

  lemma ForgetNothing(c: Contents)
    ensures Forgotten(c, {}) == c
    ensures KeysOf([]) == {}
  {
  }

  lemma ForgetOneMore(c: Contents, done: set<Path>, p: Path)
    ensures Forgotten(c, done + {p}) == Forgotten(Forgotten(c, done), {p})
  {
    assert c.echo - (done + {p}) == (c.echo - done) - {p};
    assert c.hydration - (done + {p}) == (c.hydration - done) - {p};
    assert c.tomb - (done + {p}) == (c.tomb - done) - {p};
    assert c.refetch - (done + {p}) == (c.refetch - done) - {p};
    assert c.kept - (done + {p}) == (c.kept - done) - {p};
  }

  lemma NothingToMove<V>(rows: map<Path, V>, from: Path, to: Path)
    requires forall k :: k in rows ==> !Inside(k, from)
    ensures Rekey(rows, from, to) == rows
  {
    forall k | Inside(k, to) ensures Moved(k, to, from) !in rows { InsideMoved(k, to, from); }
  }

  // ------------------------------------------------------------ what a re-key keeps

  /**
   Every row of the subtree stands under its new name with its value, nothing
   is left under the old one, and every row outside both subtrees is untouched.
   */
  lemma RekeyMoves<V>(m: map<Path, V>, from: Path, to: Path)
    requires Renamable(from, to)
    ensures forall p :: p in m && Inside(p, from) ==> Moved(p, from, to) in Rekey(m, from, to) &&
                                                      Rekey(m, from, to)[Moved(p, from, to)] == m[p]
    ensures forall p :: Inside(p, from) ==> p !in Rekey(m, from, to)
    ensures forall p :: !Inside(p, from) && !Inside(p, to) ==>
              (p in m <==> p in Rekey(m, from, to)) && (p in m ==> Rekey(m, from, to)[p] == m[p])
    ensures forall p :: Inside(p, to) && Moved(p, to, from) !in m ==>
              (p in m <==> p in Rekey(m, from, to)) && (p in m ==> Rekey(m, from, to)[p] == m[p])
  {
    forall p | Inside(p, from) ensures p !in Rekey(m, from, to) { DisjointSubtrees(from, to, p); }
    forall p | Inside(p, to) && Moved(p, to, from) !in m
      ensures (p in m <==> p in Rekey(m, from, to)) && (p in m ==> Rekey(m, from, to)[p] == m[p])
    {
      DisjointSubtrees(from, to, p);
    }
    forall p | p in m && Inside(p, from)
      ensures Moved(p, from, to) in Rekey(m, from, to) && Rekey(m, from, to)[Moved(p, from, to)] == m[p]
    {
      MovedBack(p, from, to);
      DisjointSubtrees(from, to, Moved(p, from, to));
    }
  }

  lemma RekeyMovesRows<V>(m: map<Path, V>, from: Path, to: Path)
    requires Renamable(from, to)
    ensures RowsMoved(m, Rekey(m, from, to), from, to)
  {
    RekeyMoves(m, from, to);
  }

  /** A subtree moved to a free place and back again is as it was. */
  lemma RekeyThereAndBack<V>(m: map<Path, V>, from: Path, to: Path)
    requires Renamable(from, to) && forall p :: p in m ==> !Inside(p, to)
    ensures Rekey(Rekey(m, from, to), to, from) == m
  {
    var back := Rekey(Rekey(m, from, to), to, from);
    forall p ensures (p in back <==> p in m) && (p in m ==> back[p] == m[p]) { BackAt(m, from, to, p); }
    assert back == m;
  }

  lemma BackAt<V>(m: map<Path, V>, from: Path, to: Path, p: Path)
    requires Renamable(from, to) && forall q :: q in m ==> !Inside(q, to)
    ensures var back := Rekey(Rekey(m, from, to), to, from);
      (p in back <==> p in m) && (p in m ==> back[p] == m[p])
  {
    if Inside(p, from) {
      MovedBack(p, from, to);
      DisjointSubtrees(from, to, p);
    } else if Inside(p, to) {
      DisjointSubtrees(from, to, p);
    }
  }

  predicate MatchesBaseline(tree: map<Path, string>, echo: map<Path, Echo>, p: Path) {
    p in tree && p in echo && tree[p] == echo[p].hash
  }

  /**
   The tree moved as its records were: every moved file that matched its
   baseline still does and none begins to, unless a record was left at its new path.
   */
  lemma MoveKeepsBaselines(tree: map<Path, string>, c: Contents, from: Path, to: Path, p: Path)
    requires Renamable(from, to) && Inside(p, from) && p in tree
    requires p in c.echo || Moved(p, from, to) !in c.echo
    ensures MatchesBaseline(Rekey(tree, from, to), SubtreeRenamed(c, from, to).echo, Moved(p, from, to)) <==>
            MatchesBaseline(tree, c.echo, p)
  {
    RekeyMoves(tree, from, to);
    RekeyMoves(c.echo, from, to);
    MovedBack(p, from, to);
  }

  /** A live baseline and a tombstone never stand at one path. */
  predicate NotBoth(c: Contents) { c.echo.Keys !! c.tomb.Keys }

  lemma RecordsExclusive(c: Contents, path: Path, paths: set<Path>, e: Echo, t: Tombstone)
    requires NotBoth(c)
    ensures NotBoth(EchoSet(c, path, e)) && NotBoth(Forgotten(c, paths)) && NotBoth(Deleted(c, path, t))
  {
  }

  /** Only a rename can put a baseline where a tombstone is: exactly when one waits at a moved path. */
  lemma RenameExclusiveIff(c: Contents, from: Path, to: Path)
    requires NotBoth(c) && Renamable(from, to)
    ensures NotBoth(SubtreeRenamed(c, from, to)) <==>
      forall p :: p in c.echo && Inside(p, from) ==> Moved(p, from, to) !in c.tomb
  {
    RekeyMoves(c.echo, from, to);
    var r := Rekey(c.echo, from, to);
    if NotBoth(SubtreeRenamed(c, from, to)) {
      forall p | p in c.echo && Inside(p, from) ensures Moved(p, from, to) !in c.tomb {
        assert Moved(p, from, to) in r.Keys;
      }
    } else {
      var k :| k in r && k in c.tomb;
      assert k !in c.echo;
      assert Inside(k, to);
      MovedBack(k, to, from);
      assert Moved(k, to, from) in c.echo;
    }
  }

  /** A deleted path's tombstone, and a baseline moved onto it. */
  lemma RenameLeavesBoth()
    ensures var e := Echo("h", "v", 0);
            var c := Contents(map["a" := e], map[], map[], map[], map["b" := Tombstone(e, 1)], map[], map[]);
      && NotBoth(c) && Renamable("a", "b")
      && "b" in SubtreeRenamed(c, "a", "b").echo && "b" in SubtreeRenamed(c, "a", "b").tomb
  {
    var e := Echo("h", "v", 0);
    var c := Contents(map["a" := e], map[], map[], map[], map["b" := Tombstone(e, 1)], map[], map[]);
    RekeyMoves(c.echo, "a", "b");
    assert Moved("a", "a", "b") == "b" + "";
  }

  // ------------------------------------------------------------ seen keys

  const NUL: char := '\0'

  function SeenKey(gen: string, path: Path): string { gen + [NUL] + path }

  /** One mark for every path of the list, and no others. */
  function Marks(gen: string, paths: seq<Path>): (m: map<string, bool>)
    ensures forall k :: k in m <==> exists p :: p in paths && k == SeenKey(gen, p)
  {
    map p | p in paths :: SeenKey(gen, p) := true
  }

  lemma NoMarks(rows: map<string, bool>, gen: string)
    ensures rows + Marks(gen, []) == rows
  {
  }

  lemma MarksStep(rows: map<string, bool>, gen: string, paths: seq<Path>, i: nat)
    requires i < |paths|
    ensures rows + Marks(gen, paths[..i + 1]) == (rows + Marks(gen, paths[..i]))[SeenKey(gen, paths[i]) := true]
  {
    assert paths[..i + 1] == paths[..i] + [paths[i]];
    var l, r := Marks(gen, paths[..i + 1]), Marks(gen, paths[..i])[SeenKey(gen, paths[i]) := true];
    assert forall k :: k in l <==> k in r;
    assert l == r;
  }

  lemma SeenPrefix(gen: string, below: string, p: Path)
    requires HasPrefix(p, below)
    ensures HasPrefix(SeenKey(gen, p), SeenKey(gen, below))
  {
    assert SeenKey(gen, p)[..|gen| + 1 + |below|] == gen + [NUL] + p[..|below|];
  }

  lemma SeenSuffix(gen: string, below: string, k: string)
    requires HasPrefix(k, SeenKey(gen, below))
    ensures |gen| + 1 <= |k| && k == SeenKey(gen, k[|gen| + 1..]) && HasPrefix(k[|gen| + 1..], below)
  {
    var head := SeenKey(gen, below);
    assert k == head + k[|head|..];
    assert k[|gen| + 1..] == below + k[|head|..];
  }

  lemma FirstNul(g: string, p: Path)
    requires NUL !in g
    ensures SeenKey(g, p)[|g|] == NUL && forall i :: 0 <= i < |g| ==> SeenKey(g, p)[i] != NUL
  {
  }

  /** Generations never read each other's marks: a key names one generation and one path. */
  lemma SeenKeyInjective(g: string, h: string, p: Path, q: Path)
    requires NUL !in g && NUL !in h && SeenKey(g, p) == SeenKey(h, q)
    ensures g == h && p == q
  {
    var k := SeenKey(g, p);
    FirstNul(g, p);
    FirstNul(h, q);
    assert |g| == |h|;
    assert k[..|g|] == g && k[..|h|] == h;
    assert k[|g| + 1..] == p && k[|h| + 1..] == q;
  }
}
