/**
 Root-relative slash paths as the record stores key them, and the subtree a
 path names: the path itself and everything under it.
 */
module Paths {
  type Path = string

  predicate HasPrefix(s: string, prefix: string) { |prefix| <= |s| && s[..|prefix|] == prefix }

  /** `within` and `inside`: p is q itself or a path beneath it. */
  predicate Inside(p: Path, q: Path) { p == q || HasPrefix(p, q + "/") }

  /** A path inside `from`, as it is called after `from` became `to`. */
  function Moved(p: Path, from: Path, to: Path): Path
    requires Inside(p, from)
  {
    to + p[|from|..]
  }

  /** Neither path is inside the other, and both are real: what a subtree rename will perform. */
  predicate Renamable(from: Path, to: Path) {
    from != "" && to != "" && !Inside(to, from) && !Inside(from, to)
  }

  lemma InsideSplit(p: Path, q: Path)
    requires Inside(p, q)
    ensures HasPrefix(p, q) && (|p| == |q| || p[|q|] == '/')
  {
    if p != q { assert p[..|q|] == (p[..|q| + 1])[..|q|] == q; }
  }

  lemma InsideMoved(p: Path, from: Path, to: Path)
    requires Inside(p, from)
    ensures Inside(Moved(p, from, to), to)
  {
    InsideSplit(p, from);
    if p == from {
      assert Moved(p, from, to) == to;
    } else {
      var m := Moved(p, from, to);
      assert m[..|to| + 1] == to + "/";
    }
  }

  /** Two paths with a common descendant are comparable. */
  lemma NestedPrefixes(a: Path, b: Path, p: Path)
    requires Inside(p, a) && Inside(p, b)
    ensures Inside(a, b) || Inside(b, a)
  {
    InsideSplit(p, a);
    InsideSplit(p, b);
    var (short, long) := if |a| <= |b| then (a, b) else (b, a);
    assert long[..|short|] == p[..|short|] == short;
    if |short| < |long| {
      assert long[|short|] == p[|short|] == '/';
      assert long[..|short| + 1] == short + "/";
    }
  }

  /** Subtrees of incomparable paths are disjoint. */
  lemma DisjointSubtrees(a: Path, b: Path, p: Path)
    requires !Inside(a, b) && !Inside(b, a)
    ensures !(Inside(p, a) && Inside(p, b))
  {
    if Inside(p, a) && Inside(p, b) {
      InsideSplit(p, a);
      InsideSplit(p, b);
      NestedPrefixes(a, b, p);
    }
  }

  /** Moving a subtree is injective on it, and moving it back undoes it. */
  lemma MovedBack(p: Path, from: Path, to: Path)
    requires Inside(p, from)
    ensures Inside(Moved(p, from, to), to) && Moved(Moved(p, from, to), to, from) == p
  {
    InsideSplit(p, from);
    InsideMoved(p, from, to);
    assert Moved(p, from, to)[|to|..] == p[|from|..];
    assert p == p[..|from|] + p[|from|..];
  }

  /** The keys of a subtree as they are called under its new name. */
  function MovedKeys(keys: set<Path>, from: Path, to: Path): (moved: set<Path>)
    ensures forall k :: k in moved <==> Inside(k, to) && Moved(k, to, from) in keys
  {
    var moved := set q | q in keys && Inside(q, from) :: Moved(q, from, to);
    assert forall k :: k in moved <==> Inside(k, to) && Moved(k, to, from) in keys by {
      forall k | k in moved ensures Inside(k, to) && Moved(k, to, from) in keys {
        var q :| q in keys && Inside(q, from) && k == Moved(q, from, to);
        MovedBack(q, from, to);
      }
      forall k | Inside(k, to) && Moved(k, to, from) in keys ensures k in moved {
        MovedBack(k, to, from);
      }
    }
    moved
  }

  /** A set of paths after a subtree of them was moved. */
  function RekeySet(s: set<Path>, from: Path, to: Path): set<Path> {
    (set q | q in s && !Inside(q, from)) + MovedKeys(s, from, to)
  }

  /** A map re-keyed by a subtree move: moved rows replace whatever stood at their new keys. */
  function Rekey<V>(m: map<Path, V>, from: Path, to: Path): map<Path, V> {
    map k | k in m.Keys + MovedKeys(m.Keys, from, to) &&
            (!Inside(k, from) || (Inside(k, to) && Moved(k, to, from) in m)) ::
      if Inside(k, to) && Moved(k, to, from) in m then m[Moved(k, to, from)] else m[k]
  }

  /** Every row of the subtree is under its new name, none is left under the old, and no other is touched. */
  ghost predicate RowsMoved<V>(m: map<Path, V>, m': map<Path, V>, from: Path, to: Path) {
    && (forall q :: Inside(q, from) ==> q !in m')
    && (forall q :: Inside(q, from) && q in m ==> Moved(q, from, to) in m' && m'[Moved(q, from, to)] == m[q])
    && (forall q :: !Inside(q, from) && !Inside(q, to) ==> (q in m <==> q in m') && (q in m && q in m' ==> m[q] == m'[q]))
    && (forall q :: Inside(q, to) && Moved(q, to, from) !in m && !Inside(q, from) ==>
          (q in m <==> q in m') && (q in m && q in m' ==> m[q] == m'[q]))
  }

  /** A bucket part-way through a re-key: the rows of `done` already stand at their new keys. */
  ghost function PartlyMoved<V>(base: map<Path, V>, rows: map<Path, V>, done: set<Path>, from: Path, to: Path): map<Path, V>
    requires done <= rows.Keys
  {
    map k | k in base.Keys + MovedKeys(done, from, to) ::
      if Inside(k, to) && Moved(k, to, from) in done then rows[Moved(k, to, from)] else base[k]
  }

  lemma PartlyMovedStep<V>(base: map<Path, V>, rows: map<Path, V>, done: set<Path>, q: Path, from: Path, to: Path)
    requires done <= rows.Keys && q in rows && Inside(q, from)
    ensures PartlyMoved(base, rows, done + {q}, from, to) ==
            PartlyMoved(base, rows, done, from, to)[Moved(q, from, to) := rows[q]]
  {
    MovedBack(q, from, to);
    var l, r := PartlyMoved(base, rows, done + {q}, from, to), PartlyMoved(base, rows, done, from, to)[Moved(q, from, to) := rows[q]];
    forall k ensures (k in l <==> k in r) && (k in l ==> l[k] == r[k]) {
      if Inside(k, to) { MovedBack(k, to, from); }
    }
  }

  /** With every row of the subtree moved, the bucket is re-keyed. */
  lemma AllMoved<V>(rows: map<Path, V>, sub: set<Path>, from: Path, to: Path)
    requires forall k :: k in sub <==> k in rows && Inside(k, from)
    ensures PartlyMoved(rows - sub, rows, sub, from, to) == Rekey(rows, from, to)
  {
    var l, r := PartlyMoved(rows - sub, rows, sub, from, to), Rekey(rows, from, to);
    forall k ensures (k in l <==> k in r) && (k in l ==> l[k] == r[k]) {
      if Inside(k, to) { InsideMoved(k, to, from); }
    }
  }

  // ------------------------------------------------------------ listed keys

  ghost function KeysOf(s: seq<string>): set<string> { set k | k in s }

  lemma KeysOfStep(s: seq<string>, i: nat)
    requires i < |s|
    ensures KeysOf(s[..i + 1]) == KeysOf(s[..i]) + {s[i]} && s[i] in s
  {
    assert s[..i + 1] == s[..i] + [s[i]];
  }
}
