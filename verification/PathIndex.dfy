/**
 The path and native-ID index: two buckets that must stay exact inverses of each
 other under every operation, with writes skipped when they would change nothing.
 Keys are encoded paths, "/" before the path.
 */
module PathIndex {
  import opened Options
  import opened Paths
  import opened Buckets

  type Id = string
  type Key = string

  function PathKey(p: Path): Key { "/" + p }

  /** The keys `subtree` collects for a path: its own and those beneath it, all of them for the root. */
  predicate InSubtree(k: Key, path: Path) {
    if path == "" then HasPrefix(k, "/") else Inside(k, PathKey(path))
  }

  datatype Index = Index(byPath: map<Key, Id>, byID: map<Id, Key>)

  /** Each direction says exactly what the other does. */
  ghost predicate Inverse(ix: Index) {
    && (forall k :: k in ix.byPath ==> ix.byPath[k] in ix.byID && ix.byID[ix.byPath[k]] == k)
    && (forall id :: id in ix.byID ==> ix.byID[id] in ix.byPath && ix.byPath[ix.byID[id]] == id)
  }

  /** setLocked: one mapping, after the two stale halves it displaces are gone. */
  function SetOne(ix: Index, pk: Key, id: Id): Index {
    var byID1 := if pk in ix.byPath && ix.byPath[pk] != id then ix.byID - {ix.byPath[pk]} else ix.byID;
    var byPath1 := if id in byID1 && byID1[id] != pk then ix.byPath - {byID1[id]} else ix.byPath;
    Index(byPath1[pk := id], byID1[id := pk])
  }

  lemma SetKeepsInverse(ix: Index, pk: Key, id: Id)
    requires Inverse(ix)
    ensures Inverse(SetOne(ix, pk, id))
    ensures forall k :: k in SetOne(ix, pk, id).byPath <==> k == pk || (k in ix.byPath && ix.byPath[k] != id)
    ensures forall k :: k in ix.byPath && k != pk && ix.byPath[k] != id ==> SetOne(ix, pk, id).byPath[k] == ix.byPath[k]
    ensures SetOne(ix, pk, id).byPath[pk] == id
  {
  }

  predicate HoldsPair(ix: Index, pk: Key, id: Id) {
    pk in ix.byPath && ix.byPath[pk] == id && id in ix.byID && ix.byID[id] == pk
  }

  predicate AllHeld(ix: Index, paths: seq<Path>, ids: seq<Id>)
    requires |paths| == |ids|
  {
    forall i :: 0 <= i < |paths| ==> HoldsPair(ix, PathKey(paths[i]), ids[i])
  }

  /** Storing what is stored changes nothing, so skipping it cannot be observed. */
  lemma SkipIsUnobservable(ix: Index, pk: Key, id: Id)
    requires HoldsPair(ix, pk, id)
    ensures SetOne(ix, pk, id) == ix
  {
    assert ix.byPath[pk := id] == ix.byPath;
    assert ix.byID[id := pk] == ix.byID;
  }

  function SetAll(ix: Index, paths: seq<Path>, ids: seq<Id>): Index
    requires |paths| == |ids|
    decreases |paths|
  {
    if paths == [] then ix
    else SetOne(SetAll(ix, paths[..|paths| - 1], ids[..|ids| - 1]), PathKey(paths[|paths| - 1]), ids[|ids| - 1])
  }

  lemma {:induction false} SetAllKeepsInverse(ix: Index, paths: seq<Path>, ids: seq<Id>)
    requires Inverse(ix) && |paths| == |ids|
    ensures Inverse(SetAll(ix, paths, ids))
    decreases |paths|
  {
    if paths != [] {
      var n := |paths| - 1;
      SetAllKeepsInverse(ix, paths[..n], ids[..n]);
      SetKeepsInverse(SetAll(ix, paths[..n], ids[..n]), PathKey(paths[n]), ids[n]);
    }
  }

  lemma {:induction false} SkipAllIsUnobservable(ix: Index, paths: seq<Path>, ids: seq<Id>)
    requires |paths| == |ids| && AllHeld(ix, paths, ids)
    ensures SetAll(ix, paths, ids) == ix
    decreases |paths|
  {
    if paths != [] {
      var n := |paths| - 1;
      SkipAllIsUnobservable(ix, paths[..n], ids[..n]);
      SkipIsUnobservable(ix, PathKey(paths[n]), ids[n]);
    }
  }

  function ForgetAll(ix: Index, path: Path): Index {
    var gone := set k | k in ix.byPath && InSubtree(k, path);
    Index(ix.byPath - gone, ix.byID - set k | k in gone :: ix.byPath[k])
  }

  lemma ForgetKeepsInverse(ix: Index, path: Path)
    requires Inverse(ix)
    ensures Inverse(ForgetAll(ix, path))
  {
  }

  /** What a batch comes to: a pair that no later one displaces is held, one that none displaces still is, and there are no others. */
  ghost predicate BatchStored(ix: Index, ix': Index, paths: seq<Path>, ids: seq<Id>)
    requires |paths| == |ids|
  {
    && (forall i :: 0 <= i < |paths| && (forall j :: i < j < |paths| ==> paths[j] != paths[i] && ids[j] != ids[i]) ==>
          HoldsPair(ix', PathKey(paths[i]), ids[i]))
    && (forall k :: k in ix.byPath && (forall j :: 0 <= j < |paths| ==> PathKey(paths[j]) != k && ids[j] != ix.byPath[k]) ==>
          HoldsPair(ix', k, ix.byPath[k]))
    && (forall k :: k in ix'.byPath ==>
          (k in ix.byPath && ix'.byPath[k] == ix.byPath[k]) || exists j :: 0 <= j < |paths| && PathKey(paths[j]) == k && ids[j] == ix'.byPath[k])
  }

  lemma SetLeaves(ix: Index, pk: Key, id: Id, k: Key, other: Id)
    requires Inverse(ix) && HoldsPair(ix, k, other) && k != pk && other != id
    ensures HoldsPair(SetOne(ix, pk, id), k, other)
  {
  }

  lemma PathKeyInjective(p: Path, q: Path)
    requires PathKey(p) == PathKey(q)
    ensures p == q
  {
    assert PathKey(p)[1..] == p && PathKey(q)[1..] == q;
  }

  /** The index after the first n pairs of a batch. */
  function SetFirst(ix: Index, paths: seq<Path>, ids: seq<Id>, n: nat): Index
    requires |paths| == |ids| && n <= |paths|
  {
    SetAll(ix, paths[..n], ids[..n])
  }

  lemma SetFirstStep(ix: Index, paths: seq<Path>, ids: seq<Id>, n: nat)
    requires Inverse(ix) && |paths| == |ids| && 0 < n <= |paths|
    ensures Inverse(SetFirst(ix, paths, ids, n - 1))
    ensures SetFirst(ix, paths, ids, n) == SetOne(SetFirst(ix, paths, ids, n - 1), PathKey(paths[n - 1]), ids[n - 1])
  {
    SetAllKeepsInverse(ix, paths[..n - 1], ids[..n - 1]);
    assert paths[..n][..n - 1] == paths[..n - 1] && ids[..n][..n - 1] == ids[..n - 1];
  }

  lemma {:induction false} StoredPair(ix: Index, paths: seq<Path>, ids: seq<Id>, i: nat, n: nat)
    requires Inverse(ix) && |paths| == |ids| && i < n <= |paths|
    requires forall j :: i < j < n ==> paths[j] != paths[i] && ids[j] != ids[i]
    ensures HoldsPair(SetFirst(ix, paths, ids, n), PathKey(paths[i]), ids[i])
    decreases n
  {
    SetFirstStep(ix, paths, ids, n);
    var w := SetFirst(ix, paths, ids, n - 1);
    SetKeepsInverse(w, PathKey(paths[n - 1]), ids[n - 1]);
    if i < n - 1 {
      StoredPair(ix, paths, ids, i, n - 1);
      if PathKey(paths[i]) == PathKey(paths[n - 1]) { PathKeyInjective(paths[i], paths[n - 1]); }
      SetLeaves(w, PathKey(paths[n - 1]), ids[n - 1], PathKey(paths[i]), ids[i]);
    }
  }

  lemma {:induction false} PairLeft(ix: Index, paths: seq<Path>, ids: seq<Id>, k: Key, n: nat)
    requires Inverse(ix) && |paths| == |ids| && n <= |paths| && k in ix.byPath
    requires forall j :: 0 <= j < n ==> PathKey(paths[j]) != k && ids[j] != ix.byPath[k]
    ensures HoldsPair(SetFirst(ix, paths, ids, n), k, ix.byPath[k])
    decreases n
  {
    if n > 0 {
      SetFirstStep(ix, paths, ids, n);
      PairLeft(ix, paths, ids, k, n - 1);
      SetLeaves(SetFirst(ix, paths, ids, n - 1), PathKey(paths[n - 1]), ids[n - 1], k, ix.byPath[k]);
    }
  }

  lemma {:induction false} PairFrom(ix: Index, paths: seq<Path>, ids: seq<Id>, k: Key, n: nat)
    requires Inverse(ix) && |paths| == |ids| && n <= |paths| && k in SetFirst(ix, paths, ids, n).byPath
    ensures var id := SetFirst(ix, paths, ids, n).byPath[k];
      (k in ix.byPath && id == ix.byPath[k]) || exists j :: 0 <= j < n && PathKey(paths[j]) == k && ids[j] == id
    decreases n
  {
    if n > 0 {
      SetFirstStep(ix, paths, ids, n);
      var w := SetFirst(ix, paths, ids, n - 1);
      SetKeepsInverse(w, PathKey(paths[n - 1]), ids[n - 1]);
      if k != PathKey(paths[n - 1]) { PairFrom(ix, paths, ids, k, n - 1); }
    }
  }

  lemma SetAllStores(ix: Index, paths: seq<Path>, ids: seq<Id>)
    requires Inverse(ix) && |paths| == |ids|
    ensures BatchStored(ix, SetAll(ix, paths, ids), paths, ids)
  {
    var n := |paths|;
    assert paths[..n] == paths && ids[..n] == ids;
    assert SetFirst(ix, paths, ids, n) == SetAll(ix, paths, ids);
    forall i | 0 <= i < n && (forall j :: i < j < n ==> paths[j] != paths[i] && ids[j] != ids[i])
      ensures HoldsPair(SetFirst(ix, paths, ids, n), PathKey(paths[i]), ids[i])
    {
      StoredPair(ix, paths, ids, i, n);
    }
    forall k | k in ix.byPath && (forall j :: 0 <= j < n ==> PathKey(paths[j]) != k && ids[j] != ix.byPath[k])
      ensures HoldsPair(SetFirst(ix, paths, ids, n), k, ix.byPath[k])
    {
      PairLeft(ix, paths, ids, k, n);
    }
    forall k | k in SetFirst(ix, paths, ids, n).byPath { PairFrom(ix, paths, ids, k, n); }
  }

  lemma SetAllExactly(ix: Index, paths: seq<Path>, ids: seq<Id>)
    ensures Inverse(ix) && |paths| == |ids| ==>
      Inverse(SetAll(ix, paths, ids)) && BatchStored(ix, SetAll(ix, paths, ids), paths, ids)
  {
    if Inverse(ix) && |paths| == |ids| {
      SetAllStores(ix, paths, ids);
      SetAllKeepsInverse(ix, paths, ids);
    }
  }

  /** What forgetting a path comes to, in both directions. */
  ghost predicate SubtreeForgotten(ix: Index, ix': Index, path: Path) {
    && (forall k :: k in ix'.byPath <==> k in ix.byPath && !InSubtree(k, path))
    && (forall k :: k in ix'.byPath ==> ix'.byPath[k] == ix.byPath[k])
    && (Inverse(ix) ==> forall id :: id in ix'.byID <==> id in ix.byID && !InSubtree(ix.byID[id], path))
    && (forall id :: id in ix'.byID ==> id in ix.byID && ix'.byID[id] == ix.byID[id])
  }

  lemma ForgetsExactly(ix: Index, path: Path)
    ensures SubtreeForgotten(ix, ForgetAll(ix, path), path)
  {
  }

  // ------------------------------------------------------------ rename

  /** The rows of a subtree in the order the scan collects them. */
  ghost predicate Collected(ix: Index, rows: seq<Key>, from: Key) {
    && (forall k :: k in rows <==> k in ix.byPath && Inside(k, from))
    && (forall i, j :: 0 <= i < j < |rows| ==> rows[i] != rows[j])
  }

  /** Rows of the index, each once, whose keys all start with `from`: a subtree's, or for the root all there are. */
  ghost predicate Listed(ix: Index, rows: seq<Key>, from: Key) {
    && (forall i :: 0 <= i < |rows| ==> rows[i] in ix.byPath && HasPrefix(rows[i], from))
    && (forall i, j :: 0 <= i < j < |rows| ==> rows[i] != rows[j])
  }

  /** Where a row is written: `to` in place of the `from` its key starts with. */
  function Landing(k: Key, from: Key, to: Key): Key
    requires HasPrefix(k, from)
  {
    to + k[|from|..]
  }

  lemma LandsBack(p: Key, from: Key, to: Key)
    requires HasPrefix(p, from)
    ensures HasPrefix(Landing(p, from, to), to) && Landing(Landing(p, from, to), to, from) == p
  {
    assert Landing(p, from, to)[|to|..] == p[|from|..];
    assert p == p[..|from|] + p[|from|..];
  }

  /** The keys written for the rows of `done`. */
  function Landed(done: set<Key>, from: Key, to: Key): (landed: set<Key>)
    ensures forall k :: k in landed <==> HasPrefix(k, to) && Landing(k, to, from) in done
  {
    var landed := set q | q in done && HasPrefix(q, from) :: Landing(q, from, to);
    assert forall k :: k in landed <==> HasPrefix(k, to) && Landing(k, to, from) in done by {
      forall k | k in landed ensures HasPrefix(k, to) && Landing(k, to, from) in done {
        var q :| q in done && HasPrefix(q, from) && k == Landing(q, from, to);
        LandsBack(q, from, to);
      }
      forall k | HasPrefix(k, to) && Landing(k, to, from) in done ensures k in landed { LandsBack(k, to, from); }
    }
    landed
  }

  /** The path side once the rows of `done` are written: the rest untouched, the others not yet back. */
  ghost function Relanded(ix: Index, rows: seq<Key>, done: set<Key>, from: Key, to: Key): map<Key, Id>
    requires done <= ix.byPath.Keys
  {
    map k | k in (ix.byPath - KeysOf(rows)).Keys + Landed(done, from, to) ::
      if k in Landed(done, from, to) then ix.byPath[Landing(k, to, from)] else ix.byPath[k]
  }

  lemma RelandedStep(ix: Index, rows: seq<Key>, done: set<Key>, q: Key, from: Key, to: Key)
    requires done <= ix.byPath.Keys && q in ix.byPath && HasPrefix(q, from)
    ensures Relanded(ix, rows, done + {q}, from, to) == Relanded(ix, rows, done, from, to)[Landing(q, from, to) := ix.byPath[q]]
  {
    LandsBack(q, from, to);
    var l, r := Relanded(ix, rows, done + {q}, from, to), Relanded(ix, rows, done, from, to)[Landing(q, from, to) := ix.byPath[q]];
    forall k ensures (k in l <==> k in r) && (k in l ==> l[k] == r[k]) { LandedStep(done, q, from, to, k); }
  }

  function WithoutKeys(ix: Index, rows: seq<Key>): Index {
    ix.(byPath := ix.byPath - set k | k in rows)
  }

  /** The writes of Rename, after every old key was deleted; ids are those the scan read. */
  function Rewritten(ix: Index, rows: seq<Key>, ids: seq<Id>, from: Key, to: Key): Index
    requires |rows| == |ids| && forall i :: 0 <= i < |rows| ==> HasPrefix(rows[i], from)
    decreases |rows|
  {
    if rows == [] then ix
    else
      var n := |rows| - 1;
      SetOne(Rewritten(ix, rows[..n], ids[..n], from, to), Landing(rows[n], from, to), ids[n])
  }

  /** The index once the old keys are gone and the first n rows are written. */
  ghost function AfterWrites(ix: Index, rows: seq<Key>, n: nat, from: Key, to: Key): Index
    requires Listed(ix, rows, from) && n <= |rows|
  {
    Rewritten(WithoutKeys(ix, rows), rows[..n], IdsOf(ix, rows[..n]), from, to)
  }

  /** One row's write lands where a later row used to be, and that row's write takes it away again. */
  ghost predicate Clash(rows: seq<Key>, from: Key, to: Key)
    requires forall i :: 0 <= i < |rows| ==> HasPrefix(rows[i], from)
  {
    exists i, j :: 0 <= i < j < |rows| && Landing(rows[i], from, to) == rows[j]
  }

  ghost function IdsOf(ix: Index, rows: seq<Key>): (ids: seq<Id>)
    requires forall i :: 0 <= i < |rows| ==> rows[i] in ix.byPath
    ensures |ids| == |rows| && forall i :: 0 <= i < |rows| ==> ids[i] == ix.byPath[rows[i]]
  {
    seq(|rows|, i requires 0 <= i < |rows| => ix.byPath[rows[i]])
  }

  function Renamed(k: Key, from: Key, to: Key): Key { if HasPrefix(k, from) then Landing(k, from, to) else k }

  /** Where the re-key stands once the rows of `done` are written. */
  ghost function PartWay(ix: Index, rows: seq<Key>, done: set<Key>, from: Key, to: Key): Index
    requires done <= ix.byPath.Keys
  {
    Index(Relanded(ix, rows, done, from, to),
          map id | id in ix.byID && (ix.byID[id] in rows || ix.byID[id] !in Landed(done, from, to)) ::
            if ix.byID[id] in done then Renamed(ix.byID[id], from, to) else ix.byID[id])
  }

  lemma LandingInjective(p: Key, q: Key, from: Key, to: Key)
    requires HasPrefix(p, from) && HasPrefix(q, from) && Landing(p, from, to) == Landing(q, from, to)
    ensures p == q
  {
    LandsBack(p, from, to);
    LandsBack(q, from, to);
  }

  lemma PartWayStart(ix: Index, rows: seq<Key>, from: Key, to: Key)
    requires Inverse(ix)
    ensures PartWay(ix, rows, {}, from, to) == WithoutKeys(ix, rows)
  {
    var l, r := PartWay(ix, rows, {}, from, to), WithoutKeys(ix, rows);
    assert Landed({}, from, to) == {};
    assert l.byPath == r.byPath;
    assert l.byID == r.byID;
  }

  /** What one write changes: nothing of the path side but its own key, and at most one displaced id. */
  lemma WriteOver(w: Index, pk: Key, id: Id, q: Key)
    requires id in w.byID && w.byID[id] == q && q !in w.byPath
    ensures SetOne(w, pk, id).byPath == w.byPath[pk := id]
    ensures SetOne(w, pk, id).byID ==
      (if pk in w.byPath && w.byPath[pk] != id then w.byID - {w.byPath[pk]} else w.byID)[id := pk]
  {
    assert w.byPath - {q} == w.byPath;
  }

  lemma LandedStep(done: set<Key>, q: Key, from: Key, to: Key, k: Key)
    requires HasPrefix(q, from)
    ensures k in Landed(done + {q}, from, to) <==> k in Landed(done, from, to) || k == Landing(q, from, to)
  {
    LandsBack(q, from, to);
    if HasPrefix(k, to) { LandsBack(k, to, from); }
  }

  lemma PartWayAt(ix: Index, rows: seq<Key>, done: set<Key>, q: Key, from: Key, to: Key)
    requires Inverse(ix) && Listed(ix, rows, from) && done <= KeysOf(rows) && q in rows && q !in done
    requires q !in Landed(done, from, to)
    ensures var w := PartWay(ix, rows, done, from, to);
            var pk, id := Landing(q, from, to), ix.byPath[q];
      && q !in w.byPath && id in w.byID && w.byID[id] == q && pk !in Landed(done, from, to)
      && (pk in w.byPath <==> pk in ix.byPath && pk !in rows)
      && (pk in w.byPath ==> w.byPath[pk] == ix.byPath[pk] && w.byPath[pk] != id)
  {
    LandsBack(q, from, to);
    var pk := Landing(q, from, to);
    assert Landing(pk, to, from) == q;
  }

  lemma PartWayIdOwn(ix: Index, rows: seq<Key>, done: set<Key>, q: Key, from: Key, to: Key)
    requires Inverse(ix) && Listed(ix, rows, from) && done <= KeysOf(rows) && q in rows && q !in done
    ensures var r, x := PartWay(ix, rows, done + {q}, from, to).byID, ix.byPath[q];
      x in r && r[x] == Landing(q, from, to)
  {
    assert ix.byID[ix.byPath[q]] == q;
  }

  lemma PartWayIdOther(ix: Index, rows: seq<Key>, done: set<Key>, q: Key, from: Key, to: Key, x: Id)
    requires Inverse(ix) && Listed(ix, rows, from) && done <= KeysOf(rows) && q in rows && q !in done
    requires x != ix.byPath[q]
    ensures var w, r, pk := PartWay(ix, rows, done, from, to).byID, PartWay(ix, rows, done + {q}, from, to).byID, Landing(q, from, to);
      && (x in r <==> x in w && (ix.byID[x] in rows || ix.byID[x] != pk)) && (x in r ==> r[x] == w[x])
  {
    if x in ix.byID {
      LandedStep(done, q, from, to, ix.byID[x]);
      assert ix.byID[x] != q;
    }
  }

  lemma PartWayId(ix: Index, rows: seq<Key>, done: set<Key>, q: Key, from: Key, to: Key, x: Id)
    requires Inverse(ix) && Listed(ix, rows, from) && done <= KeysOf(rows) && q in rows && q !in done
    requires q !in Landed(done, from, to)
    ensures var w, pk, id := PartWay(ix, rows, done, from, to), Landing(q, from, to), ix.byPath[q];
            var l := (if pk in w.byPath && w.byPath[pk] != id then w.byID - {w.byPath[pk]} else w.byID)[id := pk];
            var r := PartWay(ix, rows, done + {q}, from, to).byID;
      (x in l <==> x in r) && (x in l ==> l[x] == r[x])
  {
    PartWayAt(ix, rows, done, q, from, to);
    if x == ix.byPath[q] {
      PartWayIdOwn(ix, rows, done, q, from, to);
    } else {
      PartWayIdOther(ix, rows, done, q, from, to, x);
    }
  }

  lemma PartWayIds(ix: Index, rows: seq<Key>, done: set<Key>, q: Key, from: Key, to: Key)
    requires Inverse(ix) && Listed(ix, rows, from) && done <= KeysOf(rows) && q in rows && q !in done
    requires q !in Landed(done, from, to)
    ensures var w, pk, id := PartWay(ix, rows, done, from, to), Landing(q, from, to), ix.byPath[q];
      (if pk in w.byPath && w.byPath[pk] != id then w.byID - {w.byPath[pk]} else w.byID)[id := pk] ==
      PartWay(ix, rows, done + {q}, from, to).byID
  {
    forall x { PartWayId(ix, rows, done, q, from, to, x); }
  }

  /** One write, of a row no earlier write has landed on. */
  lemma PartWayStep(ix: Index, rows: seq<Key>, done: set<Key>, q: Key, from: Key, to: Key)
    requires Inverse(ix) && Listed(ix, rows, from) && done <= KeysOf(rows) && q in rows && q !in done
    requires q !in Landed(done, from, to)
    ensures SetOne(PartWay(ix, rows, done, from, to), Landing(q, from, to), ix.byPath[q]) ==
            PartWay(ix, rows, done + {q}, from, to)
  {
    var w, pk, id := PartWay(ix, rows, done, from, to), Landing(q, from, to), ix.byPath[q];
    PartWayAt(ix, rows, done, q, from, to);
    WriteOver(w, pk, id, q);
    RelandedStep(ix, rows, done, q, from, to);
    PartWayIds(ix, rows, done, q, from, to);
  }

  // ------------------------------------------------------------ exactly when it works

  lemma PartWayNext(ix: Index, rows: seq<Key>, n: nat, from: Key, to: Key)
    requires Inverse(ix) && Listed(ix, rows, from) && n < |rows| && KeysOf(rows[..n]) <= ix.byPath.Keys
    requires forall i :: 0 <= i < n ==> Landing(rows[i], from, to) != rows[n]
    ensures KeysOf(rows[..n + 1]) <= ix.byPath.Keys
    ensures SetOne(PartWay(ix, rows, KeysOf(rows[..n]), from, to), Landing(rows[n], from, to), ix.byPath[rows[n]]) ==
            PartWay(ix, rows, KeysOf(rows[..n + 1]), from, to)
  {
    KeysOfStep(rows, n);
    NoEarlierLanding(rows, n, from, to);
    assert rows[n] !in KeysOf(rows[..n]);
    PartWayStep(ix, rows, KeysOf(rows[..n]), rows[n], from, to);
  }

  /** With no clash in the first n rows, n writes stand part way. */
  lemma {:induction false} RewrittenPartWay(ix: Index, rows: seq<Key>, n: nat, from: Key, to: Key)
    requires Inverse(ix) && Listed(ix, rows, from) && n <= |rows|
    requires forall i, j :: 0 <= i < j < n ==> Landing(rows[i], from, to) != rows[j]
    ensures KeysOf(rows[..n]) <= ix.byPath.Keys
    ensures AfterWrites(ix, rows, n, from, to) ==
            PartWay(ix, rows, KeysOf(rows[..n]), from, to)
    decreases n
  {
    if n == 0 {
      PartWayStart(ix, rows, from, to);
      assert KeysOf(rows[..0]) == {};
    } else {
      RewrittenPartWay(ix, rows, n - 1, from, to);
      RewrittenStep(ix, rows, n - 1, from, to);
      PartWayNext(ix, rows, n - 1, from, to);
    }
  }

  lemma NoEarlierLanding(rows: seq<Key>, n: nat, from: Key, to: Key)
    requires n < |rows| && forall i :: 0 <= i < |rows| ==> HasPrefix(rows[i], from)
    ensures rows[n] in Landed(KeysOf(rows[..n]), from, to) <==> exists i :: 0 <= i < n && Landing(rows[i], from, to) == rows[n]
  {
    if rows[n] in Landed(KeysOf(rows[..n]), from, to) {
      var q := Landing(rows[n], to, from);
      assert q in rows[..n];
      var i :| 0 <= i < n && rows[..n][i] == q;
      LandsBack(rows[n], to, from);
    }
    if i :| 0 <= i < n && Landing(rows[i], from, to) == rows[n] {
      LandsBack(rows[i], from, to);
      assert rows[..n][i] == rows[i];
    }
  }

  lemma AllWrittenInverse(ix: Index, rows: seq<Key>, from: Key, to: Key)
    requires Inverse(ix) && Listed(ix, rows, from)
    ensures KeysOf(rows) <= ix.byPath.Keys && Inverse(PartWay(ix, rows, KeysOf(rows), from, to))
  {
    var w := PartWay(ix, rows, KeysOf(rows), from, to);
    forall k | k in w.byPath ensures w.byPath[k] in w.byID && w.byID[w.byPath[k]] == k {
      if HasPrefix(k, to) && Landing(k, to, from) in rows { LandsBack(k, to, from); }
    }
    forall id | id in w.byID ensures w.byID[id] in w.byPath && w.byPath[w.byID[id]] == id {
      var q := ix.byID[id];
      if q in rows { LandsBack(q, from, to); }
    }
  }

  /** For a whole subtree that is the re-key of the path side. */
  lemma RelandedSubtree(ix: Index, rows: seq<Key>, from: Key, to: Key)
    requires Collected(ix, rows, from)
    ensures KeysOf(rows) <= ix.byPath.Keys && Relanded(ix, rows, KeysOf(rows), from, to) == Rekey(ix.byPath, from, to)
  {
    var l, r := Relanded(ix, rows, KeysOf(rows), from, to), Rekey(ix.byPath, from, to);
    forall k ensures (k in l <==> k in r) && (k in l ==> l[k] == r[k]) {
      if HasPrefix(k, to) && Landing(k, to, from) in rows {
        LandsBack(k, to, from);
        InsideMoved(Landing(k, to, from), from, to);
      } else if Inside(k, to) {
        InsideSplit(k, to);
        InsideMoved(k, to, from);
      }
    }
  }

  lemma SubtreeListed(ix: Index, rows: seq<Key>, from: Key)
    requires Collected(ix, rows, from)
    ensures Listed(ix, rows, from)
  {
    forall i | 0 <= i < |rows| ensures rows[i] in ix.byPath && HasPrefix(rows[i], from) {
      assert rows[i] in rows;
      InsideSplit(rows[i], from);
    }
  }

  /** An id whose path entry a later write took: it can be found by id and not by path. */
  ghost predicate Orphaned(w: Index, id: Id, k: Key) {
    id in w.byID && w.byID[id] == k && k !in w.byPath && forall j :: j in w.byPath ==> w.byPath[j] != id
  }

  lemma OrphanStays(w: Index, id: Id, k: Key, pk: Key, other: Id)
    requires Orphaned(w, id, k) && pk != k && other != id
    ensures Orphaned(SetOne(w, pk, other), id, k)
  {
  }

  /** A write whose id still names the old key k takes k away from whoever stands there. */
  lemma WriteTakesAway(w: Index, pk: Key, id: Id, k: Key, lost: Id)
    requires id in w.byID && w.byID[id] == k && lost in w.byID && w.byID[lost] == k && lost != id && pk != k
    requires forall j :: j in w.byPath && w.byPath[j] == lost ==> j == k
    requires pk in w.byPath ==> w.byPath[pk] != lost && w.byPath[pk] != id
    ensures Orphaned(SetOne(w, pk, id), lost, k)
  {
  }

  lemma {:induction false} OrphanForever(ix: Index, rows: seq<Key>, i: nat, n: nat, m: nat, from: Key, to: Key)
    requires Inverse(ix) && Listed(ix, rows, from) && i < n <= m <= |rows|
    requires Orphaned(AfterWrites(ix, rows, n, from, to),
                      ix.byPath[rows[i]], Landing(rows[i], from, to))
    ensures Orphaned(AfterWrites(ix, rows, m, from, to),
                     ix.byPath[rows[i]], Landing(rows[i], from, to))
    decreases m
  {
    if n < m {
      OrphanForever(ix, rows, i, n, m - 1, from, to);
      RewrittenStep(ix, rows, m - 1, from, to);
      if Landing(rows[m - 1], from, to) == Landing(rows[i], from, to) { LandingInjective(rows[m - 1], rows[i], from, to); }
      assert ix.byID[ix.byPath[rows[m - 1]]] == rows[m - 1] && ix.byID[ix.byPath[rows[i]]] == rows[i];
      OrphanStays(AfterWrites(ix, rows, m - 1, from, to),
                  ix.byPath[rows[i]], Landing(rows[i], from, to), Landing(rows[m - 1], from, to), ix.byPath[rows[m - 1]]);
    }
  }

  /** The write of row r takes away what row q's write put where r used to be. */
  lemma ClashAt(ix: Index, rows: seq<Key>, done: set<Key>, q: Key, r: Key, from: Key, to: Key)
    requires Inverse(ix) && Listed(ix, rows, from) && done <= KeysOf(rows) && q in done && r in rows && r !in done
    requires Landing(q, from, to) == r
    ensures Orphaned(SetOne(PartWay(ix, rows, done, from, to), Landing(r, from, to), ix.byPath[r]), ix.byPath[q], r)
  {
    var w := PartWay(ix, rows, done, from, to);
    var id, pk, lost := ix.byPath[r], Landing(r, from, to), ix.byPath[q];
    assert ix.byID[id] == r && ix.byID[lost] == q;
    if pk == r { LandingInjective(q, r, from, to); }
    LostOnlyThere(ix, rows, done, q, from, to);
    PartWayValues(ix, rows, done, from, to, id);
    WriteTakesAway(w, pk, id, r, lost);
  }

  lemma ClashOrphans(ix: Index, rows: seq<Key>, i: nat, j: nat, from: Key, to: Key)
    requires Inverse(ix) && Listed(ix, rows, from) && i < j < |rows|
    requires forall a, b :: 0 <= a < b < j ==> Landing(rows[a], from, to) != rows[b]
    requires Landing(rows[i], from, to) == rows[j]
    ensures Orphaned(AfterWrites(ix, rows, j + 1, from, to),
                     ix.byPath[rows[i]], rows[j])
  {
    RewrittenPartWay(ix, rows, j, from, to);
    RewrittenStep(ix, rows, j, from, to);
    assert rows[..j][i] == rows[i];
    ClashAt(ix, rows, KeysOf(rows[..j]), rows[i], rows[j], from, to);
  }

  lemma RewrittenStep(ix: Index, rows: seq<Key>, n: nat, from: Key, to: Key)
    requires Listed(ix, rows, from) && n < |rows|
    ensures AfterWrites(ix, rows, n + 1, from, to) ==
            SetOne(AfterWrites(ix, rows, n, from, to), Landing(rows[n], from, to), ix.byPath[rows[n]])
  {
    assert rows[..n + 1][..n] == rows[..n];
    assert IdsOf(ix, rows[..n + 1])[..n] == IdsOf(ix, rows[..n]);
  }

  /** An id whose row is not yet written is at no key. */
  lemma PartWayValues(ix: Index, rows: seq<Key>, done: set<Key>, from: Key, to: Key, id: Id)
    requires Inverse(ix) && Listed(ix, rows, from) && done <= KeysOf(rows)
    requires id in ix.byID && ix.byID[id] in rows && ix.byID[id] !in done
    ensures forall k :: k in PartWay(ix, rows, done, from, to).byPath ==> PartWay(ix, rows, done, from, to).byPath[k] != id
  {
  }

  lemma LostOnlyThere(ix: Index, rows: seq<Key>, done: set<Key>, q: Key, from: Key, to: Key)
    requires Inverse(ix) && Listed(ix, rows, from) && done <= KeysOf(rows) && q in done
    ensures var w := PartWay(ix, rows, done, from, to);
      forall k :: k in w.byPath && w.byPath[k] == ix.byPath[q] ==> k == Landing(q, from, to)
  {
    var w := PartWay(ix, rows, done, from, to);
    forall k | k in w.byPath && w.byPath[k] == ix.byPath[q] ensures k == Landing(q, from, to) {
      if HasPrefix(k, to) && Landing(k, to, from) in done {
        LandsBack(k, to, from);
        assert ix.byID[ix.byPath[Landing(k, to, from)]] == Landing(k, to, from);
      }
    }
  }

  /** The first clash of a list that has one. */
  lemma {:induction false} FirstClash(rows: seq<Key>, n: nat, from: Key, to: Key) returns (i: nat, j: nat)
    requires n <= |rows| && forall a :: 0 <= a < |rows| ==> HasPrefix(rows[a], from)
    requires exists a, b :: 0 <= a < b < n && Landing(rows[a], from, to) == rows[b]
    ensures i < j < n && Landing(rows[i], from, to) == rows[j]
    ensures forall a, b :: 0 <= a < b < j ==> Landing(rows[a], from, to) != rows[b]
    decreases n
  {
    if exists a, b :: 0 <= a < b < n - 1 && Landing(rows[a], from, to) == rows[b] {
      i, j := FirstClash(rows, n - 1, from, to);
    } else {
      i, j :| 0 <= i < j < n && Landing(rows[i], from, to) == rows[j];
    }
  }

  /**
   Rename leaves the buckets exact inverses exactly when no row's write lands
   where a later row used to be; and then every row it read, and no other, has moved.
   */
  lemma RewriteIff(ix: Index, rows: seq<Key>, from: Key, to: Key)
    requires Inverse(ix) && Listed(ix, rows, from)
    ensures var w := Rewritten(WithoutKeys(ix, rows), rows, IdsOf(ix, rows), from, to);
      && (Inverse(w) <==> !Clash(rows, from, to))
      && KeysOf(rows) <= ix.byPath.Keys
      && (Inverse(w) ==> w.byPath == Relanded(ix, rows, KeysOf(rows), from, to))
  {
    var all := |rows|;
    assert rows[..all] == rows;
    assert IdsOf(ix, rows[..all]) == IdsOf(ix, rows);
    if Clash(rows, from, to) {
      var i, j := FirstClash(rows, all, from, to);
      ClashOrphans(ix, rows, i, j, from, to);
      OrphanForever(ix, rows, i, j + 1, all, from, to);
    } else {
      RewrittenPartWay(ix, rows, all, from, to);
      AllWrittenInverse(ix, rows, from, to);
    }
  }

  /** For a path below the root: inverses exactly without such a landing, and then exactly the subtree re-keyed, ids kept. */
  lemma RenameIff(ix: Index, rows: seq<Key>, from: Key, to: Key)
    requires Inverse(ix) && Collected(ix, rows, from)
    ensures Listed(ix, rows, from)
    ensures var w := Rewritten(WithoutKeys(ix, rows), rows, IdsOf(ix, rows), from, to);
      && (Inverse(w) <==> !Clash(rows, from, to))
      && (Inverse(w) ==> w.byPath == Rekey(ix.byPath, from, to))
  {
    SubtreeListed(ix, rows, from);
    RewriteIff(ix, rows, from, to);
    RelandedSubtree(ix, rows, from, to);
  }

  /** Incomparable paths never clash. */
  lemma RenamableNeverClashes(rows: seq<Key>, from: Key, to: Key)
    requires !Inside(to, from) && !Inside(from, to) && forall i :: 0 <= i < |rows| ==> Inside(rows[i], from)
    ensures (forall i :: 0 <= i < |rows| ==> HasPrefix(rows[i], from)) && !Clash(rows, from, to)
  {
    forall i | 0 <= i < |rows| ensures HasPrefix(rows[i], from) { InsideSplit(rows[i], from); }
    forall i, j | 0 <= i < j < |rows| ensures Moved(rows[i], from, to) != rows[j] {
      InsideMoved(rows[i], from, to);
      DisjointSubtrees(from, to, rows[j]);
    }
  }

  /** A rename into its own subtree that does clash: the child's write takes the parent's away. */
  lemma NestedRenameClashes()
    ensures var ix := Index(map["/a" := "1", "/a/a" := "2"], map["1" := "/a", "2" := "/a/a"]);
            var rows := ["/a", "/a/a"];
      && Inverse(ix) && Collected(ix, rows, "/a")
      && Inside(rows[0], "/a") && Inside(rows[1], "/a") && Moved(rows[0], "/a", "/a/a") == rows[1]
  {
    var ix := Index(map["/a" := "1", "/a/a" := "2"], map["1" := "/a", "2" := "/a/a"]);
    var rows := ["/a", "/a/a"];
    assert HasPrefix("/a/a", "/a" + "/");
    assert Moved("/a", "/a", "/a/a") == "/a/a" + "";
  }

  // ------------------------------------------------------------ the root

  lemma JoinedUnderIff(p: Path, to: Path)
    ensures Inside(to + p, to) <==> p == "" || p[0] == '/'
  {
    var q := to + p;
    if p == "" {
      assert q == to;
    } else {
      assert q[..|to|] == to && q[|to|] == p[0];
      if p[0] == '/' { assert q[..|to| + 1] == to + "/"; } else { assert q[..|to| + 1] != to + "/" by { assert (to + "/")[|to|] == '/'; } }
    }
  }

  lemma JoinedRow(ix: Index, rows: seq<Key>, to: Path, p: Path)
    requires Listed(ix, rows, PathKey("")) && PathKey(p) in rows && KeysOf(rows) <= ix.byPath.Keys
    ensures var r := Relanded(ix, rows, KeysOf(rows), PathKey(""), PathKey(to));
      PathKey(to + p) in r && r[PathKey(to + p)] == ix.byPath[PathKey(p)]
  {
    var from, top := PathKey(""), PathKey(to);
    assert HasPrefix(PathKey(p), from);
    assert Landing(PathKey(p), from, top) == PathKey(to + p);
    LandsBack(PathKey(p), from, top);
  }

  lemma RelandedCount(ix: Index, rows: seq<Key>, from: Key, to: Key)
    requires Listed(ix, rows, from) && ix.byPath.Keys == KeysOf(rows)
    ensures |Relanded(ix, rows, KeysOf(rows), from, to)| == |ix.byPath|
  {
    var r := Relanded(ix, rows, KeysOf(rows), from, to);
    forall k | k in KeysOf(rows) ensures HasPrefix(k, from) { assert k in rows; }
    assert r.Keys == Landed(KeysOf(rows), from, to);
    LandedCount(KeysOf(rows), from, to);
    assert |r| == |r.Keys| && |ix.byPath| == |ix.byPath.Keys|;
  }

  /**
   A rename of the mount root: the new name goes before each path with nothing
   between, so what lands under the new name is the root itself alone; and the
   buckets stay inverse exactly when no such join names a path read later.
   */
  lemma RootRename(ix: Index, rows: seq<Key>, to: Path)
    requires Inverse(ix) && Listed(ix, rows, PathKey("")) && ix.byPath.Keys == KeysOf(rows)
    ensures var w := Rewritten(WithoutKeys(ix, rows), rows, IdsOf(ix, rows), PathKey(""), PathKey(to));
      && (Inverse(w) <==> !Clash(rows, PathKey(""), PathKey(to)))
      && (Inverse(w) ==> |w.byPath| == |ix.byPath|)
      && (Inverse(w) ==> forall p :: PathKey(p) in ix.byPath ==>
            PathKey(to + p) in w.byPath && w.byPath[PathKey(to + p)] == ix.byPath[PathKey(p)] &&
            (Inside(to + p, to) <==> p == "" || p[0] == '/'))
  {
    var from, top := PathKey(""), PathKey(to);
    var w := Rewritten(WithoutKeys(ix, rows), rows, IdsOf(ix, rows), from, top);
    RewriteIff(ix, rows, from, top);
    if Inverse(w) {
      RelandedCount(ix, rows, from, top);
      forall p | PathKey(p) in ix.byPath
        ensures PathKey(to + p) in w.byPath && w.byPath[PathKey(to + p)] == ix.byPath[PathKey(p)]
        ensures Inside(to + p, to) <==> p == "" || p[0] == '/'
      {
        assert PathKey(p) in KeysOf(rows);
        JoinedRow(ix, rows, to, p);
        JoinedUnderIff(p, to);
      }
    }
  }

  lemma {:induction false} LandedCount(done: set<Key>, from: Key, to: Key)
    requires forall k :: k in done ==> HasPrefix(k, from)
    ensures |Landed(done, from, to)| == |done|
    decreases |done|
  {
    if done == {} {
      assert Landed(done, from, to) == {};
    } else {
      var q :| q in done;
      LandedCount(done - {q}, from, to);
      LandsBack(q, from, to);
      forall k ensures k in Landed(done, from, to) <==> k in Landed(done - {q}, from, to) + {Landing(q, from, to)} {
        assert done - {q} + {q} == done;
        LandedStep(done - {q}, q, from, to, k);
      }
      assert Landed(done, from, to) == Landed(done - {q}, from, to) + {Landing(q, from, to)};
    }
  }

  /** A row for a, with the root renamed to n: it is na's, and not n/a's. */
  lemma RootRenameJoins()
    ensures var ix := Index(map["/a" := "1"], map["1" := "/a"]);
            var w := Rewritten(WithoutKeys(ix, ["/a"]), ["/a"], ["1"], PathKey(""), PathKey("n"));
      Inverse(ix) && "/na" in w.byPath && "/n/a" !in w.byPath
  {
    var ix := Index(map["/a" := "1"], map["1" := "/a"]);
    assert Landing("/a", PathKey(""), PathKey("n")) == "/na";
    assert ["/a"][..0] == [] && ["1"][..0] == [];
  }

  /** A row the scan of the root reads twice, the root's own, comes first and is written twice alike. */
  lemma {:induction false} TwiceFirst(ix: Index, rows: seq<Key>, ids: seq<Id>, from: Key, to: Key)
    requires |rows| == |ids| > 0 && forall i :: 0 <= i < |rows| ==> HasPrefix(rows[i], from)
    ensures Rewritten(ix, [rows[0]] + rows, [ids[0]] + ids, from, to) == Rewritten(ix, rows, ids, from, to)
    decreases |rows|
  {
    var n := |rows| - 1;
    assert ([rows[0]] + rows)[..n + 1] == [rows[0]] + rows[..n] && ([ids[0]] + ids)[..n + 1] == [ids[0]] + ids[..n];
    if n == 0 {
      assert [rows[0]] + rows[..0] == [rows[0]] == rows && [ids[0]] + ids[..0] == [ids[0]] == ids;
      SkipIsUnobservable(Rewritten(ix, rows, ids, from, to), Landing(rows[0], from, to), ids[0]);
    } else {
      TwiceFirst(ix, rows[..n], ids[..n], from, to);
    }
  }

  // ------------------------------------------------------------ the store

  const SCHEMA := "v1"

  class IndexStore {
    var byPath: Bucket<Id>
    var byID: map<Id, Key>
    var identity: Option<string>
    var bound: bool
    var commits: nat

    ghost predicate Valid()
      reads this
    {
      byPath.Valid() && Slashed(byPath.rows.Keys) && Slashed(byID.Values)
    }

    ghost function View(): Index
      reads this
    {
      Index(byPath.rows, byID)
    }

    constructor ()
      ensures Valid() && View() == Index(map[], map[]) && Inverse(View()) && !bound
    {
      byPath, byID, identity, bound, commits := Empty(), map[], None, false, 0;
    }

    /** Another account's index, or another schema's, is emptied rather than read. */
    method Bind(id: string) returns (reused: bool)
      requires Valid()
      modifies this
      ensures Valid() && bound && identity == Some(SCHEMA + "\0" + id)
      ensures reused <==> old(identity) == identity
      ensures View() == if reused then old(View()) else Index(map[], map[])
      ensures commits == old(commits) + (if reused then 0 else 1)
    {
      var want := SCHEMA + "\0" + id;
      reused := identity == Some(want);
      if !reused {
        byPath, byID, identity, commits := Empty(), map[], Some(want), commits + 1;
      }
      bound := true;
    }

    method Lookup(path: Path) returns (id: Option<Id>)
      ensures id == if bound && PathKey(path) in View().byPath then Some(View().byPath[PathKey(path)]) else None
    {
      id := if bound then byPath.Get(PathKey(path)) else None;
    }

    method PathFor(id: Id) returns (path: Option<Path>)
      requires Valid()
      ensures path.Some? <==> bound && id in byID
      ensures path.Some? ==> byID[id] == PathKey(path.value)
      ensures path.Some? && Inverse(View()) ==> PathKey(path.value) in View().byPath && View().byPath[PathKey(path.value)] == id
    {
      if !bound || id !in byID { return None; }
      var k := byID[id];
      assert k in byID.Values && HasPrefix(k, "/") && k == "/" + k[1..];
      path := Some(k[1..]);
    }

    method SetLocked(pk: Key, id: Id)
      requires Valid() && HasPrefix(pk, "/")
      modifies this`byPath, this`byID
      ensures Valid() && View() == SetOne(old(View()), pk, id)
    {
      if pk in byPath.rows && byPath.rows[pk] != id { byID := byID - {byPath.rows[pk]}; }
      if id in byID && byID[id] != pk { byPath := byPath.Delete(byID[id]); }
      byPath := byPath.Put(pk, id);
      byID := byID[id := pk];
    }

    method Set(path: Path, id: Id)
      requires Valid()
      modifies this
      ensures Valid() && bound == old(bound)
      ensures View() == if bound then SetOne(old(View()), PathKey(path), id) else old(View())
      ensures bound && old(Inverse(View())) ==> Inverse(View()) && HoldsPair(View(), PathKey(path), id)
      ensures commits == old(commits) + (if bound && !HoldsPair(old(View()), PathKey(path), id) then 1 else 0)
    {
      if Inverse(View()) { SetKeepsInverse(View(), PathKey(path), id); }
      if !bound { return; }
      var pk := PathKey(path);
      if byPath.Get(pk) == Some(id) && id in byID && byID[id] == pk {
        SkipIsUnobservable(View(), pk, id);
        return;
      }
      SetLocked(pk, id);
      commits := commits + 1;
    }

    method HoldsAll(paths: seq<Path>, ids: seq<Id>) returns (all: bool)
      requires |paths| == |ids|
      ensures all <==> AllHeld(View(), paths, ids)
    {
      for i := 0 to |paths|
        invariant forall j :: 0 <= j < i ==> HoldsPair(View(), PathKey(paths[j]), ids[j])
      {
        var pk := PathKey(paths[i]);
        if byPath.Get(pk) != Some(ids[i]) || ids[i] !in byID || byID[ids[i]] != pk {
          assert !HoldsPair(View(), PathKey(paths[i]), ids[i]);
          return false;
        }
      }
      all := true;
    }

    /** False: the two lists do not pair up, and nothing was stored. */
    method SetMany(paths: seq<Path>, ids: seq<Id>) returns (ok: bool)
      requires Valid()
      modifies this
      ensures Valid() && bound == old(bound)
      ensures ok <==> !bound || paths == [] || |paths| == |ids|
      ensures View() == if bound && |paths| == |ids| then SetAll(old(View()), paths, ids) else old(View())
      ensures bound && |paths| == |ids| && old(Inverse(View())) ==> Inverse(View())
      ensures bound && |paths| == |ids| && old(Inverse(View())) ==> BatchStored(old(View()), View(), paths, ids)
      ensures commits == old(commits) ||
              (commits == old(commits) + 1 && bound && |paths| == |ids| && !AllHeld(old(View()), paths, ids))
    {
      SetAllExactly(View(), paths, ids);
      if !bound || paths == [] { return true; }
      if |paths| != |ids| { return false; }
      ok := true;
      var all := HoldsAll(paths, ids);
      if all {
        SkipAllIsUnobservable(View(), paths, ids);
        return;
      }
      SetEach(paths, ids);
      commits := commits + 1;
    }

    method SetEach(paths: seq<Path>, ids: seq<Id>)
      requires Valid() && |paths| == |ids|
      modifies this`byPath, this`byID
      ensures Valid() && View() == SetAll(old(View()), paths, ids)
    {
      for i := 0 to |paths|
        invariant Valid()
        invariant View() == SetAll(old(View()), paths[..i], ids[..i])
      {
        SetLocked(PathKey(paths[i]), ids[i]);
        assert paths[..i + 1][..i] == paths[..i] && ids[..i + 1][..i] == ids[..i];
      }
      assert paths[..|paths|] == paths && ids[..|ids|] == ids;
    }

    /**
     subtree: the path's own row, then the rows beneath it; for the root the walk
     meets that row again, and `once` is the list without it.
     */
    method Subtree(path: Path) returns (rows: seq<Key>, ghost once: seq<Key>)
      requires Valid()
      ensures forall k :: k in rows <==> k in View().byPath && InSubtree(k, path)
      ensures forall k :: k in rows <==> k in once
      ensures Listed(View(), once, PathKey(path))
      ensures path != "" ==> rows == once && Collected(View(), rows, PathKey(path))
      ensures rows == once || (once != [] && rows == [once[0]] + once)
    {
      var pk := PathKey(path);
      var below := byPath.Scan(if path == "" then pk else pk + "/");
      forall i, j | 0 <= i < j < |below| ensures below[i] != below[j] { LessIrreflexive(below[i]); }
      rows := if pk in byPath.rows then [pk] + below else below;
      once := if path == "" then below else rows;
      if path == "" {
        RootFirst(below);
        forall i | 0 <= i < |below| ensures below[i] in View().byPath && HasPrefix(below[i], pk) { assert below[i] in below; }
      } else {
        assert pk !in below;
        SubtreeListed(View(), rows, pk);
      }
    }

    /** The ids of the rows a scan collected. */
    method ReadIds(rows: seq<Key>) returns (ids: seq<Id>)
      requires forall i :: 0 <= i < |rows| ==> rows[i] in byPath.rows
      ensures ids == IdsOf(View(), rows)
    {
      ids := [];
      for i := 0 to |rows|
        invariant |ids| == i && forall j :: 0 <= j < i ==> ids[j] == byPath.rows[rows[j]]
      {
        ids := ids + [byPath.rows[rows[i]]];
      }
    }

    method DeletePaths(rows: seq<Key>)
      requires Valid()
      modifies this`byPath
      ensures Valid() && byPath.rows == old(byPath.rows) - KeysOf(rows)
    {
      for i := 0 to |rows|
        invariant Valid() && byPath.rows == old(byPath.rows) - KeysOf(rows[..i])
      {
        KeysOfStep(rows, i);
        byPath := byPath.Delete(rows[i]);
      }
      assert rows[..|rows|] == rows;
    }

    method DeleteRows(rows: seq<Key>, ids: seq<Id>)
      requires Valid() && |rows| == |ids|
      modifies this`byPath, this`byID
      ensures Valid() && byPath.rows == old(byPath.rows) - KeysOf(rows)
      ensures byID == old(byID) - KeysOf(ids)
    {
      for i := 0 to |rows|
        invariant Valid() && byPath.rows == old(byPath.rows) - KeysOf(rows[..i])
        invariant byID == old(byID) - KeysOf(ids[..i])
      {
        KeysOfStep(rows, i);
        KeysOfStep(ids, i);
        byPath := byPath.Delete(rows[i]);
        byID := byID - {ids[i]};
      }
      assert rows[..|rows|] == rows && ids[..|ids|] == ids;
    }

    method Forget(path: Path)
      requires Valid()
      modifies this
      ensures Valid() && bound == old(bound)
      ensures View() == if bound then ForgetAll(old(View()), path) else old(View())
      ensures bound ==> SubtreeForgotten(old(View()), View(), path)
    {
      ForgetsExactly(View(), path);
      if !bound { return; }
      var rows, once := Subtree(path);
      forall i | 0 <= i < |rows| ensures rows[i] in byPath.rows { assert rows[i] in rows; }
      var ids := ReadIds(rows);
      ForgottenIds(View(), rows, path);
      DeleteRows(rows, ids);
      commits := commits + 1;
    }

    /** Every row written under its new key, in the order the scan read them. */
    method WriteMoved(rows: seq<Key>, ids: seq<Id>, oldPath: Path, newPath: Path)
      requires Valid() && |rows| == |ids|
      requires forall i :: 0 <= i < |rows| ==> HasPrefix(rows[i], PathKey(oldPath))
      modifies this`byPath, this`byID
      ensures Valid() && View() == Rewritten(old(View()), rows, ids, PathKey(oldPath), PathKey(newPath))
    {
      for i := 0 to |rows|
        invariant Valid()
        invariant View() == Rewritten(old(View()), rows[..i], ids[..i], PathKey(oldPath), PathKey(newPath))
      {
        assert rows[..i + 1][..i] == rows[..i] && ids[..i + 1][..i] == ids[..i];
        SetLocked(PathKey(newPath) + rows[i][|PathKey(oldPath)|..], ids[i]);
      }
      assert rows[..|rows|] == rows && ids[..|rows|] == ids;
    }

    /** A server-side move: every old key deleted, then every row written under its new one. */
    method Rename(oldPath: Path, newPath: Path) returns (ghost rows: seq<Key>)
      requires Valid()
      modifies this
      ensures Valid() && bound == old(bound)
      ensures !bound ==> View() == old(View())
      ensures bound ==> Listed(old(View()), rows, PathKey(oldPath))
      ensures bound ==> forall k :: k in rows <==> k in old(View()).byPath && InSubtree(k, oldPath)
      ensures bound && oldPath != "" ==> Collected(old(View()), rows, PathKey(oldPath))
      ensures bound ==>
        View() == Rewritten(WithoutKeys(old(View()), rows), rows, IdsOf(old(View()), rows), PathKey(oldPath), PathKey(newPath))
    {
      rows := [];
      if !bound { return; }
      ghost var was := View();
      var found, once := Subtree(oldPath);
      rows := once;
      FoundInOnce(was, found, once, PathKey(oldPath));
      MoveRows(found, oldPath, newPath);
      WrittenOnce(was, found, once, PathKey(oldPath), PathKey(newPath));
      commits := commits + 1;
    }

    /** The ids read, the old keys deleted, and the rows written under their new ones. */
    method MoveRows(found: seq<Key>, oldPath: Path, newPath: Path)
      requires Valid() && forall i :: 0 <= i < |found| ==> found[i] in View().byPath && HasPrefix(found[i], PathKey(oldPath))
      modifies this`byPath, this`byID
      ensures Valid()
      ensures View() == Rewritten(WithoutKeys(old(View()), found), found, IdsOf(old(View()), found), PathKey(oldPath), PathKey(newPath))
    {
      ghost var was := View();
      var ids := ReadIds(found);
      DeletePaths(found);
      assert View() == WithoutKeys(was, found);
      WriteMoved(found, ids, oldPath, newPath);
    }
  }

  ghost predicate Slashed(keys: set<Key>) { forall k :: k in keys ==> HasPrefix(k, "/") }

  /** The root's key is the least of all. */
  lemma RootFirst(found: seq<Key>)
    requires forall i, j :: 0 <= i < j < |found| ==> Less(found[i], found[j])
    requires forall k :: k in found ==> HasPrefix(k, "/")
    ensures "/" in found ==> found[0] == "/"
  {
    if j :| 0 <= j < |found| && found[j] == "/" {
      assert found[0] in found;
      PrefixFirst(found[0], "/");
    }
  }

  lemma FoundInOnce(ix: Index, found: seq<Key>, once: seq<Key>, from: Key)
    requires Listed(ix, once, from) && forall k :: k in found <==> k in once
    ensures forall i :: 0 <= i < |found| ==> found[i] in ix.byPath && HasPrefix(found[i], from)
    ensures WithoutKeys(ix, found) == WithoutKeys(ix, once)
  {
    forall i | 0 <= i < |found| ensures found[i] in ix.byPath && HasPrefix(found[i], from) {
      assert found[i] in once;
      var j :| 0 <= j < |once| && once[j] == found[i];
    }
    assert (set k | k in found) == (set k | k in once);
  }

  lemma IdsTwice(ix: Index, once: seq<Key>)
    requires once != [] && forall i :: 0 <= i < |once| ==> once[i] in ix.byPath
    ensures forall i :: 0 <= i < |once| + 1 ==> ([once[0]] + once)[i] in ix.byPath
    ensures IdsOf(ix, [once[0]] + once) == [IdsOf(ix, once)[0]] + IdsOf(ix, once)
  {
  }

  lemma WrittenOnce(ix: Index, found: seq<Key>, once: seq<Key>, from: Key, to: Key)
    requires Listed(ix, once, from) && (found == once || (once != [] && found == [once[0]] + once))
    requires forall i :: 0 <= i < |found| ==> found[i] in ix.byPath && HasPrefix(found[i], from)
    requires WithoutKeys(ix, found) == WithoutKeys(ix, once)
    ensures Rewritten(WithoutKeys(ix, found), found, IdsOf(ix, found), from, to) ==
            Rewritten(WithoutKeys(ix, once), once, IdsOf(ix, once), from, to)
  {
    if found != once {
      IdsTwice(ix, once);
      TwiceFirst(WithoutKeys(ix, once), once, IdsOf(ix, once), from, to);
    }
  }

  /** Deleting the rows a scan collected, and the ids it read, is what forgetting a path means. */
  lemma ForgottenIds(ix: Index, rows: seq<Key>, path: Path)
    requires forall k :: k in rows <==> k in ix.byPath && InSubtree(k, path)
    requires forall i :: 0 <= i < |rows| ==> rows[i] in ix.byPath
    ensures ForgetAll(ix, path) == Index(ix.byPath - KeysOf(rows), ix.byID - KeysOf(IdsOf(ix, rows)))
  {
    var gone := set k | k in ix.byPath && InSubtree(k, path);
    var ids := IdsOf(ix, rows);
    assert KeysOf(rows) == gone;
    var lost := set k | k in gone :: ix.byPath[k];
    forall id | id in lost ensures id in ids {
      var k :| k in gone && ix.byPath[k] == id;
      var i :| 0 <= i < |rows| && rows[i] == k;
      assert ids[i] == id;
    }
    assert KeysOf(ids) == lost;
  }

  /** What a rename of two incomparable paths comes to: the subtree re-keyed, both directions still inverse. */
  lemma RenameRekeys(ix: Index, rows: seq<Key>, oldPath: Path, newPath: Path)
    requires Inverse(ix) && Collected(ix, rows, PathKey(oldPath)) && Renamable(oldPath, newPath)
    ensures Listed(ix, rows, PathKey(oldPath))
    ensures var w := Rewritten(WithoutKeys(ix, rows), rows, IdsOf(ix, rows), PathKey(oldPath), PathKey(newPath));
      Inverse(w) && w.byPath == Rekey(ix.byPath, PathKey(oldPath), PathKey(newPath))
  {
    KeysIncomparable(oldPath, newPath);
    forall i | 0 <= i < |rows| ensures Inside(rows[i], PathKey(oldPath)) { assert rows[i] in rows; }
    RenamableNeverClashes(rows, PathKey(oldPath), PathKey(newPath));
    RenameIff(ix, rows, PathKey(oldPath), PathKey(newPath));
  }

  lemma KeysIncomparable(p: Path, q: Path)
    ensures Inside(PathKey(p), PathKey(q)) <==> Inside(p, q)
    ensures Inside(PathKey(q), PathKey(p)) <==> Inside(q, p)
  {
    KeyInside(p, q);
    KeyInside(q, p);
  }

  lemma KeyInside(p: Path, q: Path)
    ensures Inside(PathKey(p), PathKey(q)) <==> Inside(p, q)
  {
    assert PathKey(p)[1..] == p && PathKey(q)[1..] == q;
    if |q| + 1 <= |p| {
      assert PathKey(p)[..|q| + 2] == "/" + p[..|q| + 1];
      assert PathKey(q) + "/" == "/" + (q + "/");
      assert PathKey(p)[..|q| + 2][1..] == p[..|q| + 1];
      assert (PathKey(q) + "/")[1..] == q + "/";
    }
  }

  // ------------------------------------------------------------ every run

  datatype Op =
    | OpBind(same: bool)
    | OpSet(path: Path, id: Id)
    | OpSetMany(paths: seq<Path>, ids: seq<Id>)
    | OpForget(path: Path)
    | OpRename(from: Path, to: Path, rows: seq<Key>)

  ghost predicate OpEnabled(ix: Index, op: Op) {
    match op
    case OpSetMany(paths, ids) => |paths| == |ids|
    case OpRename(from, to, rows) =>
      Renamable(from, to) && Collected(ix, rows, PathKey(from)) && Listed(ix, rows, PathKey(from))
    case _ => true
  }

  ghost function Run1(ix: Index, op: Op): Index
    requires OpEnabled(ix, op)
  {
    match op
    case OpBind(same) => if same then ix else Index(map[], map[])
    case OpSet(p, id) => SetOne(ix, PathKey(p), id)
    case OpSetMany(ps, ids) => SetAll(ix, ps, ids)
    case OpForget(p) => ForgetAll(ix, p)
    case OpRename(from, to, rows) => Rewritten(WithoutKeys(ix, rows), rows, IdsOf(ix, rows), PathKey(from), PathKey(to))
  }

  ghost predicate IndexRun(xs: seq<Index>, ops: seq<Op>) {
    && |xs| == |ops| + 1 && xs[0] == Index(map[], map[])
    && forall i :: 0 <= i < |ops| ==> OpEnabled(xs[i], ops[i]) && xs[i + 1] == Run1(xs[i], ops[i])
  }

  /** The two directions are exact inverses after every run of operations. */
  lemma {:induction false} AlwaysInverse(xs: seq<Index>, ops: seq<Op>, k: nat)
    requires IndexRun(xs, ops) && k < |xs|
    ensures Inverse(xs[k])
    decreases k
  {
    if k > 0 {
      AlwaysInverse(xs, ops, k - 1);
      OpKeepsInverse(xs[k - 1], ops[k - 1]);
    }
  }

  lemma OpKeepsInverse(ix: Index, op: Op)
    requires Inverse(ix) && OpEnabled(ix, op)
    ensures Inverse(Run1(ix, op))
  {
    match op
    case OpBind(same) =>
    case OpSet(p, id) => SetKeepsInverse(ix, PathKey(p), id);
    case OpSetMany(ps, ids) => SetAllKeepsInverse(ix, ps, ids);
    case OpForget(p) => ForgetKeepsInverse(ix, p);
    case OpRename(from, to, rows) => RenameRekeys(ix, rows, from, to);
  }
}
