/**
 A bucket of the embedded store: string keys in lexicographic order, read by a
 cursor that seeks and walks. The point is the prefix scan: a seek to a prefix
 and a walk while it lasts meets exactly the keys that have it.
 */
module Buckets {
  import opened Options
  import opened Paths

  predicate Less(a: string, b: string)
    decreases |a|
  {
    b != "" && (a == "" || a[0] < b[0] || (a[0] == b[0] && Less(a[1..], b[1..])))
  }

  lemma {:induction false} LessTrans(a: string, b: string, c: string)
    requires Less(a, b) && Less(b, c)
    ensures Less(a, c)
    decreases |a|
  {
    if a != "" && a[0] == b[0] && b[0] == c[0] { LessTrans(a[1..], b[1..], c[1..]); }
  }

  lemma {:induction false} LessTotal(a: string, b: string)
    ensures Less(a, b) || a == b || Less(b, a)
    decreases |a|
  {
    if a != "" && b != "" && a[0] == b[0] {
      LessTotal(a[1..], b[1..]);
      if a[1..] == b[1..] { assert a == [a[0]] + a[1..] == b; }
    }
  }

  lemma {:induction false} LessIrreflexive(a: string)
    ensures !Less(a, a)
    decreases |a|
  {
    if a != "" { LessIrreflexive(a[1..]); }
  }

  /** A key with the prefix does not sort below it. */
  lemma {:induction false} PrefixFirst(k: string, prefix: string)
    requires HasPrefix(k, prefix)
    ensures !Less(k, prefix)
    decreases |k|
  {
    if k != "" && prefix != "" {
      assert k[0] == k[..|prefix|][0];
      assert k[1..][..|prefix| - 1] == prefix[1..];
      PrefixFirst(k[1..], prefix[1..]);
    }
  }

  /** Prefix contiguity: what sorts between a prefix and a key with it has the prefix. */
  lemma {:induction false} PrefixContiguous(prefix: string, k: string, m: string)
    requires !Less(k, prefix) && Less(k, m) && HasPrefix(m, prefix)
    ensures HasPrefix(k, prefix)
    decreases |prefix|
  {
    if prefix != "" {
      assert m[0] == m[..|prefix|][0] == prefix[0];
      assert k != "" && k[0] == prefix[0];
      assert m[1..][..|prefix| - 1] == prefix[1..];
      PrefixContiguous(prefix[1..], k[1..], m[1..]);
      assert k[..|prefix|] == [k[0]] + k[1..][..|prefix| - 1];
    }
  }

  ghost predicate Sorted(keys: seq<string>) { forall i, j :: 0 <= i < j < |keys| ==> Less(keys[i], keys[j]) }

  /** Cutting one key out of a sorted list leaves it sorted, with that key alone gone. */
  lemma RemoveAt(keys: seq<string>, at: nat)
    requires Sorted(keys) && at < |keys|
    ensures var s := keys[..at] + keys[at + 1..];
      Sorted(s) && forall x :: x in s <==> x in keys && x != keys[at]
  {
    var s := keys[..at] + keys[at + 1..];
    forall x | x in keys && x != keys[at] ensures x in s {
      var j :| 0 <= j < |keys| && keys[j] == x;
      assert s[if j < at then j else j - 1] == x;
    }
    forall x | x in s ensures x in keys && x != keys[at] {
      var j :| 0 <= j < |s| && s[j] == x;
      var m := if j < at then j else j + 1;
      assert keys[m] == x;
      LessIrreflexive(x);
    }
  }

  datatype Bucket<V> = Bucket(keys: seq<string>, rows: map<string, V>) {
    ghost predicate Valid() {
      && Sorted(keys)
      && (forall k :: k in keys <==> k in rows)
    }

    function Get(k: string): (v: Option<V>) {
      if k in rows then Some(rows[k]) else None
    }

    /** The position of the first key not below k. */
    method Seek(k: string) returns (at: nat)
      requires Valid()
      ensures at <= |keys|
      ensures forall i :: 0 <= i < at ==> Less(keys[i], k)
      ensures forall i :: at <= i < |keys| ==> !Less(keys[i], k)
    {
      var lo, hi := 0, |keys|;
      while lo < hi
        invariant 0 <= lo <= hi <= |keys|
        invariant forall i :: 0 <= i < lo ==> Less(keys[i], k)
        invariant forall i :: hi <= i < |keys| ==> !Less(keys[i], k)
      {
        var mid := (lo + hi) / 2;
        if Less(keys[mid], k) {
          forall i | 0 <= i < mid ensures Less(keys[i], k) { LessTrans(keys[i], keys[mid], k); }
          lo := mid + 1;
        } else {
          forall i | mid < i < |keys| ensures !Less(keys[i], k) {
            if Less(keys[i], k) { LessTrans(keys[mid], keys[i], k); }
          }
          hi := mid;
        }
      }
      at := lo;
    }

    method Put(k: string, v: V) returns (b: Bucket<V>)
      requires Valid()
      ensures b.Valid() && b.rows == rows[k := v]
    {
      if k in rows { return Bucket(keys, rows[k := v]); }
      var at := Seek(k);
      b := Bucket(keys[..at] + [k] + keys[at..], rows[k := v]);
      forall i | at <= i < |keys| ensures Less(k, keys[i]) {
        LessTotal(keys[i], k);
        assert keys[i] in keys;
      }
      assert forall x :: x in b.keys <==> x in keys || x == k;
    }

    method Delete(k: string) returns (b: Bucket<V>)
      requires Valid()
      ensures b.Valid() && b.rows == rows - {k}
    {
      if k !in rows {
        assert rows - {k} == rows;
        return this;
      }
      var at := Seek(k);
      ghost var i :| 0 <= i < |keys| && keys[i] == k;
      LessIrreflexive(k);
      assert at <= i && !Less(keys[at], k);
      assert at == i;
      RemoveAt(keys, at);
      b := Bucket(keys[..at] + keys[at + 1..], rows - {k});
    }

    /** The keys with the prefix, in order, by a seek and a walk. */
    method Scan(prefix: string) returns (found: seq<string>)
      requires Valid()
      ensures forall k :: k in found <==> k in rows && HasPrefix(k, prefix)
      ensures forall i, j :: 0 <= i < j < |found| ==> Less(found[i], found[j])
    {
      var from := Seek(prefix);
      var i := from;
      while i < |keys| && HasPrefix(keys[i], prefix)
        invariant from <= i <= |keys|
        invariant forall j :: from <= j < i ==> HasPrefix(keys[j], prefix)
      {
        i := i + 1;
      }
      found := keys[from..i];
      forall k | k in rows && HasPrefix(k, prefix) ensures k in found {
        var j :| 0 <= j < |keys| && keys[j] == k;
        PrefixFirst(k, prefix);
        if j >= i {
          if i < j { PrefixContiguous(prefix, keys[i], k); }
        }
        assert found[j - from] == k;
      }
      forall k | k in found ensures k in rows && HasPrefix(k, prefix) {
        var j :| 0 <= j < |found| && found[j] == k;
        assert keys[from + j] == k && k in keys;
      }
    }
  }

  function Empty<V>(): Bucket<V> { Bucket([], map[]) }
}
