/**
 Byte-extent sets: which blocks of a file are marked. A grid is the set of marked
 block numbers of a file cut into blocks of one size; the last block may be short.
 */
module Ranges {
  import opened Arithmetic

  datatype Range = Range(off: int, len: int)

  datatype Grid = Grid(bs: int, size: int, marks: set<int>)

  function NumBlocks(size: int, bs: int): int
    requires bs > 0
  {
    if size <= 0 then 0 else (size + bs - 1) / bs
  }

  ghost predicate Wf(g: Grid) {
    g.bs > 0 && g.size >= 0 && forall i :: i in g.marks ==> 0 <= i < NumBlocks(g.size, g.bs)
  }

  /** The first byte past block i. */
  function BlockEnd(g: Grid, i: int): int {
    if (i + 1) * g.bs < g.size then (i + 1) * g.bs else g.size
  }

  /** Byte b lies in a marked block of the file. */
  ghost predicate Marked(g: Grid, b: int)
    requires g.bs > 0
  {
    0 <= b < g.size && b / g.bs in g.marks
  }

  ghost predicate Covers(r: Range, b: int) { r.off <= b < r.off + r.len }

  // ------------------------------------------------------------ block arithmetic

  /** Rounding a byte position up reaches the first block starting at or after it. */
  lemma RoundUp(b: int, bs: int, i: int)
    requires bs > 0
    ensures (b + bs - 1) / bs <= i <==> b <= i * bs
  {
    var q := (b + bs - 1) / bs;
    InBlock(b + bs - 1, bs, q);
    if i < q { MulLess(i, q, bs); }
    if q < i { MulLess(q, i, bs); }
  }

  /** Rounding down reaches the last block starting at or before it. */
  lemma RoundDown(b: int, bs: int, i: int)
    requires bs > 0
    ensures i <= b / bs <==> i * bs <= b
  {
    var q := b / bs;
    InBlock(b, bs, q);
    if i < q { MulLess(i, q, bs); }
    if q < i { MulLess(q, i, bs); }
  }

  /** A block of the file starts inside it, and its bytes are exactly those that divide to it. */
  lemma BlockBytes(g: Grid, i: int, b: int)
    requires g.bs > 0
    ensures i < NumBlocks(g.size, g.bs) && 0 <= i ==> 0 <= i * g.bs < BlockEnd(g, i) <= g.size
    ensures 0 <= b < g.size && b / g.bs == i ==> 0 <= i < NumBlocks(g.size, g.bs)
    ensures 0 <= b < g.size ==> (b / g.bs == i <==> i * g.bs <= b < BlockEnd(g, i))
  {
    RoundUp(g.size, g.bs, i);
    InBlock(b, g.bs, i);
    assert (i + 1) * g.bs == i * g.bs + g.bs;
    if 0 <= i { assert 0 <= i * g.bs; }
    if 0 <= b && b / g.bs == i && i < 0 { MulLess(i, 0, g.bs); }
  }

  // ------------------------------------------------------------ runs

  /** Where the run of blocks in one state that starts at i stops. */
  function RunEnd(marks: set<int>, i: int, last: int, want: bool): (e: int)
    requires i <= last
    ensures i <= e <= last
    ensures forall j :: i <= j < e ==> (j in marks) == want
    ensures e < last ==> (e in marks) != want
    decreases last - i
  {
    if i < last && (i in marks) == want then RunEnd(marks, i + 1, last, want) else i
  }

  function Runs(g: Grid, i: int, last: int, want: bool): seq<Range>
    decreases last - i
  {
    if i >= last then []
    else if (i in g.marks) != want then Runs(g, i + 1, last, want)
    else
      var e := RunEnd(g.marks, i, last, want);
      [RunRange(g, i, e)] + Runs(g, e, last, want)
  }

  /** The byte range of blocks [i, e), cut at the end of the file. */
  function RunRange(g: Grid, i: int, e: int): Range {
    Range(i * g.bs, (if e * g.bs > g.size then g.size else e * g.bs) - i * g.bs)
  }

  /** Non-empty, block-aligned at both ends (or ending with the file), and inside it. */
  ghost predicate Aligned(g: Grid, r: Range)
    requires g.bs > 0
  {
    && r.len > 0 && r.off >= 0 && r.off + r.len <= g.size && r.off % g.bs == 0
    && ((r.off + r.len) % g.bs == 0 || r.off + r.len == g.size)
  }

  /** Ascending with a gap between any two neighbours. */
  ghost predicate Apart(rs: seq<Range>) {
    forall i, j :: 0 <= i < j < |rs| ==> rs[i].off + rs[i].len < rs[j].off
  }

  ghost predicate CoveredBy(rs: seq<Range>, b: int) {
    exists i :: 0 <= i < |rs| && Covers(rs[i], b)
  }

  /** The exact maximal partition of the bytes of blocks [first, last) that are in the wanted state. */
  ghost predicate ExactRuns(g: Grid, first: int, last: int, want: bool, rs: seq<Range>)
    requires g.bs > 0
  {
    && (forall i :: 0 <= i < |rs| ==> Aligned(g, rs[i]))
    && Apart(rs)
    && forall b :: CoveredBy(rs, b) <==> 0 <= b < g.size && first <= b / g.bs < last && (b / g.bs in g.marks) == want
  }

  lemma Multiples(i: int, bs: int)
    requires bs > 0
    ensures (i * bs) % bs == 0
  {
    InBlock(i * bs, bs, i);
    assert i * bs == (i * bs) / bs * bs + (i * bs) % bs;
  }

  lemma RunRangeBounds(g: Grid, i: int, e: int)
    requires g.bs > 0 && 0 <= i < e <= NumBlocks(g.size, g.bs)
    ensures 0 <= i * g.bs < g.size && i * g.bs < e * g.bs
    ensures e * g.bs > g.size ==> e == NumBlocks(g.size, g.bs)
    ensures RunRange(g, i, e).off + RunRange(g, i, e).len == BlockEnd(g, e - 1)
  {
    BlockBytes(g, i, 0);
    MulLess(i, e, g.bs);
    RoundUp(g.size, g.bs, e);
  }

  lemma RunRangeIsAligned(g: Grid, i: int, e: int)
    requires g.bs > 0 && 0 <= i < e <= NumBlocks(g.size, g.bs)
    ensures Aligned(g, RunRange(g, i, e))
  {
    RunRangeBounds(g, i, e);
    Multiples(i, g.bs);
    Multiples(e, g.bs);
  }

  lemma RunRangeCovers(g: Grid, i: int, e: int, b: int)
    requires g.bs > 0 && 0 <= i < e <= NumBlocks(g.size, g.bs)
    ensures Covers(RunRange(g, i, e), b) <==> 0 <= b < g.size && i <= b / g.bs < e
  {
    RunRangeBounds(g, i, e);
    RoundDown(b, g.bs, i);
    RoundDown(b, g.bs, e);
  }

  /** Every covered byte of the runs from block i on lies at or after block i. */
  lemma {:induction false} RunsStartLate(g: Grid, i: int, last: int, want: bool)
    requires g.bs > 0 && 0 <= i && last <= NumBlocks(g.size, g.bs)
    ensures forall k :: 0 <= k < |Runs(g, i, last, want)| ==> Runs(g, i, last, want)[k].off >= i * g.bs
    ensures i < last && (i in g.marks) != want ==>
              forall k :: 0 <= k < |Runs(g, i, last, want)| ==> Runs(g, i, last, want)[k].off >= i * g.bs + g.bs
    decreases last - i
  {
    if i < last {
      if (i in g.marks) != want {
        RunsStartLate(g, i + 1, last, want);
        MulLess(i, i + 1, g.bs);
      } else {
        var e := RunEnd(g.marks, i, last, want);
        RunsStartLate(g, e, last, want);
        MulLess(i, e, g.bs);
      }
    }
  }

  lemma CoveredCons(r: Range, rest: seq<Range>, b: int)
    ensures CoveredBy([r] + rest, b) <==> Covers(r, b) || CoveredBy(rest, b)
  {
    var rs := [r] + rest;
    if CoveredBy(rs, b) {
      var i :| 0 <= i < |rs| && Covers(rs[i], b);
      if i > 0 { assert Covers(rest[i - 1], b); }
    }
    if Covers(r, b) { assert Covers(rs[0], b); }
    if CoveredBy(rest, b) {
      var i :| 0 <= i < |rest| && Covers(rest[i], b);
      assert Covers(rs[i + 1], b);
    }
  }

  /** runs computes the exact maximal partition. */
  lemma {:induction false} RunsAreExact(g: Grid, i: int, last: int, want: bool)
    requires Wf(g) && 0 <= i && last <= NumBlocks(g.size, g.bs)
    ensures ExactRuns(g, i, last, want, Runs(g, i, last, want))
    decreases last - i
  {
    if i >= last {
      assert Runs(g, i, last, want) == [];
    } else if (i in g.marks) != want {
      RunsAreExact(g, i + 1, last, want);
    } else {
      var e := RunEnd(g.marks, i, last, want);
      assert e > i;
      RunsAreExact(g, e, last, want);
      RunsStartLate(g, e, last, want);
      ConsIsExact(g, i, e, last, want, Runs(g, e, last, want));
    }
  }

  lemma ConsIsExact(g: Grid, i: int, e: int, last: int, want: bool, rest: seq<Range>)
    requires Wf(g) && 0 <= i < e <= last <= NumBlocks(g.size, g.bs)
    requires forall j :: i <= j < e ==> (j in g.marks) == want
    requires ExactRuns(g, e, last, want, rest)
    requires e < last ==> forall k :: 0 <= k < |rest| ==> rest[k].off >= e * g.bs + g.bs
    requires e == last ==> rest == []
    ensures ExactRuns(g, i, last, want, [RunRange(g, i, e)] + rest)
  {
    var r := RunRange(g, i, e);
    RunRangeIsAligned(g, i, e);
    RunRangeBounds(g, i, e);
    forall b ensures CoveredBy([r] + rest, b) <==>
                     0 <= b < g.size && i <= b / g.bs < last && (b / g.bs in g.marks) == want
    {
      CoveredCons(r, rest, b);
      RunRangeCovers(g, i, e, b);
    }
  }

  lemma CoverHead(rs: seq<Range>, b: int)
    requires rs != [] && Apart(rs) && b <= rs[0].off + rs[0].len
    ensures CoveredBy(rs, b) <==> Covers(rs[0], b)
  {
    if CoveredBy(rs, b) {
      var i :| 0 <= i < |rs| && Covers(rs[i], b);
      assert i == 0;
    }
  }

  lemma CoverTail(rs: seq<Range>, b: int)
    requires rs != [] && Apart(rs) && forall i :: 0 <= i < |rs| ==> rs[i].len > 0
    ensures CoveredBy(rs[1..], b) <==> CoveredBy(rs, b) && b >= rs[0].off + rs[0].len
  {
    assert [rs[0]] + rs[1..] == rs;
    CoveredCons(rs[0], rs[1..], b);
    if CoveredBy(rs[1..], b) {
      var i :| 0 <= i < |rs[1..]| && Covers(rs[1..][i], b);
      assert rs[0].off + rs[0].len < rs[i + 1].off;
    }
  }

  lemma SomethingCovered(rs: seq<Range>)
    requires forall i :: 0 <= i < |rs| ==> rs[i].len > 0
    ensures rs != [] <==> exists b :: CoveredBy(rs, b)
  {
    if rs != [] { assert Covers(rs[0], rs[0].off) && CoveredBy(rs, rs[0].off); }
  }

  /** Separated non-empty ranges. */
  ghost predicate Proper(rs: seq<Range>) { Apart(rs) && forall i :: 0 <= i < |rs| ==> rs[i].len > 0 }

  ghost predicate SameCover(xs: seq<Range>, ys: seq<Range>) { forall b :: CoveredBy(xs, b) <==> CoveredBy(ys, b) }

  /** Nothing else could have been returned: separated non-empty ranges are determined by the bytes they cover. */
  lemma {:induction false} SameCoverSameRanges(xs: seq<Range>, ys: seq<Range>)
    requires Proper(xs) && Proper(ys) && SameCover(xs, ys)
    ensures xs == ys
    decreases |xs|
  {
    SameEmptiness(xs, ys);
    if xs != [] {
      SameHead(xs, ys);
      SameTail(xs, ys);
      ProperTail(xs);
      ProperTail(ys);
      SameCoverSameRanges(xs[1..], ys[1..]);
      assert xs == [xs[0]] + xs[1..] && ys == [ys[0]] + ys[1..];
    }
  }

  lemma ProperTail(rs: seq<Range>)
    requires Proper(rs) && rs != []
    ensures Proper(rs[1..])
  {
    forall i | 0 <= i < |rs[1..]| ensures rs[1..][i].len > 0 { assert rs[1..][i] == rs[i + 1]; }
  }

  lemma SameEmptiness(xs: seq<Range>, ys: seq<Range>)
    requires Proper(xs) && Proper(ys) && SameCover(xs, ys)
    ensures xs == [] <==> ys == []
  {
    SomethingCovered(xs);
    SomethingCovered(ys);
  }

  lemma SameTail(xs: seq<Range>, ys: seq<Range>)
    requires Proper(xs) && Proper(ys) && SameCover(xs, ys) && xs != [] && ys != [] && xs[0] == ys[0]
    ensures SameCover(xs[1..], ys[1..])
  {
    forall b ensures CoveredBy(xs[1..], b) <==> CoveredBy(ys[1..], b) {
      CoverTail(xs, b);
      CoverTail(ys, b);
      assert CoveredBy(xs, b) <==> CoveredBy(ys, b);
    }
  }

  lemma SameHead(xs: seq<Range>, ys: seq<Range>)
    requires Proper(xs) && Proper(ys) && SameCover(xs, ys) && xs != [] && ys != []
    ensures xs[0] == ys[0]
  {
    var x, y := xs[0], ys[0];
    assert Covers(x, x.off) && Covers(y, y.off);
    assert CoveredBy(xs, x.off) && CoveredBy(ys, y.off);
    NothingBefore(xs, y.off);
    NothingBefore(ys, x.off);
    assert x.off == y.off;
    CoverHead(xs, x.off + x.len);
    CoverHead(ys, y.off + y.len);
    assert x.len < y.len ==> Covers(y, x.off + x.len);
    assert y.len < x.len ==> Covers(x, y.off + y.len);
  }

  lemma NothingBefore(rs: seq<Range>, b: int)
    requires rs != [] && Apart(rs) && CoveredBy(rs, b)
    requires forall i :: 0 <= i < |rs| ==> rs[i].len > 0
    ensures rs[0].off <= b
  {
    var i :| 0 <= i < |rs| && Covers(rs[i], b);
    if i > 0 { assert rs[0].off + rs[0].len < rs[i].off; }
  }

  lemma ExactRunsUnique(g: Grid, first: int, last: int, want: bool, xs: seq<Range>, ys: seq<Range>)
    requires Wf(g) && ExactRuns(g, first, last, want, xs) && ExactRuns(g, first, last, want, ys)
    ensures xs == ys
  {
    SameCoverSameRanges(xs, ys);
  }

  // ------------------------------------------------------------ spans

  /** What is left of a span once cut to the file. */
  datatype Clip = Outside | Within(start: int, end: int)

  function Clamp(size: int, off: int, n: int): Clip {
    var n' := if off < 0 then n + off else n;
    var start := if off < 0 then 0 else off;
    var end := if start + n' > size then size else start + n';
    if n' <= 0 || size <= 0 || start >= end then Outside else Within(start, end)
  }

  lemma ClampIsIntersection(size: int, off: int, n: int, b: int)
    ensures 0 <= b < size && off <= b < off + n <==>
            Clamp(size, off, n).Within? && Clamp(size, off, n).start <= b < Clamp(size, off, n).end
  {
  }

  /** The blocks a span touches, as a half-open block range. */
  function BlockSpan(g: Grid, off: int, n: int): (int, int)
    requires g.bs > 0
  {
    match Clamp(g.size, off, n)
    case Outside => (0, 0)
    case Within(start, end) => (start / g.bs, (end + g.bs - 1) / g.bs)
  }

  /** Some byte of block i lies in the span. */
  ghost predicate Touches(g: Grid, i: int, off: int, n: int)
    requires g.bs > 0
  {
    exists b :: 0 <= b < g.size && b / g.bs == i && off <= b < off + n
  }

  /** Every byte of block i lies in the span. */
  ghost predicate Fills(g: Grid, i: int, off: int, n: int)
    requires g.bs > 0
  {
    0 <= i < NumBlocks(g.size, g.bs) && forall b :: 0 <= b < g.size && b / g.bs == i ==> off <= b < off + n
  }

  /** A span touches block i exactly when the block's own byte interval overlaps the clipped span. */
  lemma TouchesIff(g: Grid, i: int, off: int, n: int)
    requires Wf(g)
    ensures Touches(g, i, off, n) <==>
            var c := Clamp(g.size, off, n); c.Within? && i * g.bs < c.end && c.start < i * g.bs + g.bs
  {
    var c := Clamp(g.size, off, n);
    if Touches(g, i, off, n) {
      var b :| 0 <= b < g.size && b / g.bs == i && off <= b < off + n;
      InBlock(b, g.bs, i);
    }
    if c.Within? && i * g.bs < c.end && c.start < i * g.bs + g.bs {
      var b := if i * g.bs < c.start then c.start else i * g.bs;
      InBlock(b, g.bs, i);
      assert 0 <= b < g.size && b / g.bs == i && off <= b < off + n;
    }
  }

  lemma BlockSpanIsExact(g: Grid, off: int, n: int, i: int)
    requires Wf(g)
    ensures BlockSpan(g, off, n).0 <= i < BlockSpan(g, off, n).1 <==> Touches(g, i, off, n)
  {
    TouchesIff(g, i, off, n);
    match Clamp(g.size, off, n)
    case Outside =>
    case Within(start, end) =>
      RoundUp(end, g.bs, i);
      RoundDown(start, g.bs, i);
      RoundDown(start, g.bs, i + 1);
      assert (i + 1) * g.bs == i * g.bs + g.bs;
  }

  /** A span touches only blocks of the file. */
  lemma TouchedBlockExists(g: Grid, i: int, off: int, n: int)
    requires Wf(g) && Touches(g, i, off, n)
    ensures 0 <= i < NumBlocks(g.size, g.bs)
  {
    var b :| 0 <= b < g.size && b / g.bs == i && off <= b < off + n;
    BlockBytes(g, i, b);
  }

  lemma BlockSpanBounds(g: Grid, off: int, n: int)
    requires Wf(g)
    ensures 0 <= BlockSpan(g, off, n).0 <= BlockSpan(g, off, n).1 <= NumBlocks(g.size, g.bs)
  {
    var (first, last) := BlockSpan(g, off, n);
    if c :| c == Clamp(g.size, off, n) && c.Within? {
      InBlock(c.start, g.bs, first);
      assert Touches(g, first, off, n);
      BlockSpanIsExact(g, off, n, first);
      TouchedBlockExists(g, first, off, n);
      InBlock(c.end - 1, g.bs, (c.end - 1) / g.bs);
      assert Touches(g, last - 1, off, n) by { BlockSpanIsExact(g, off, n, last - 1); }
      TouchedBlockExists(g, last - 1, off, n);
    }
  }

  // ------------------------------------------------------------ marking

  function BlockNumbers(first: int, last: int): (s: set<int>)
    ensures forall i :: i in s <==> first <= i < last
    decreases last - first
  {
    if first >= last then {} else BlockNumbers(first, last - 1) + {last - 1}
  }

  /** Mark: rounds inward, the end of the file counting as a block's end. */
  function MarkInward(g: Grid, off: int, n: int): Grid
    requires g.bs > 0
  {
    match Clamp(g.size, off, n)
    case Outside => g
    case Within(start, end) =>
      var last := if end == g.size then NumBlocks(g.size, g.bs) else end / g.bs;
      g.(marks := g.marks + BlockNumbers((start + g.bs - 1) / g.bs, last))
  }

  /** MarkCovering: rounds outward. */
  function MarkOutward(g: Grid, off: int, n: int): Grid
    requires g.bs > 0
  {
    match Clamp(g.size, off, n)
    case Outside => g
    case Within(start, end) =>
      g.(marks := g.marks + BlockNumbers(start / g.bs, (end + g.bs - 1) / g.bs))
  }

  function GrowTo(g: Grid, size: int): Grid { if size <= g.size then g else g.(size := size) }

  /** Union: refused, changing nothing, when the two are not cut into the same blocks. */
  function UnionOf(g: Grid, other: Grid): Grid {
    if g.bs != other.bs then g else GrowTo(g, other.size).(marks := g.marks + other.marks)
  }

  /** A block is filled exactly when its own byte interval lies inside the clipped span. */
  lemma FillsIff(g: Grid, i: int, off: int, n: int)
    requires Wf(g) && 0 <= i < NumBlocks(g.size, g.bs)
    ensures Fills(g, i, off, n) <==>
            var c := Clamp(g.size, off, n); c.Within? && c.start <= i * g.bs && BlockEnd(g, i) <= c.end
  {
    var lo, hi := i * g.bs, BlockEnd(g, i) - 1;
    BlockBytes(g, i, lo);
    BlockBytes(g, i, hi);
    assert lo / g.bs == i && hi / g.bs == i;
    forall b ensures 0 <= b < g.size && b / g.bs == i ==> lo <= b <= hi { BlockBytes(g, i, b); }
  }

  /** Mark adds a block exactly when the whole of it, as far as the file reaches, lies in the span. */
  lemma MarkIsExact(g: Grid, off: int, n: int, i: int)
    requires Wf(g)
    ensures i in MarkInward(g, off, n).marks <==> i in g.marks || Fills(g, i, off, n)
  {
    match Clamp(g.size, off, n)
    case Outside =>
      if 0 <= i < NumBlocks(g.size, g.bs) { FillsIff(g, i, off, n); }
    case Within(start, end) =>
      RoundUp(start, g.bs, i);
      RoundDown(end, g.bs, i + 1);
      RoundUp(g.size, g.bs, i);
      assert (i + 1) * g.bs == i * g.bs + g.bs;
      if 0 <= i < NumBlocks(g.size, g.bs) { FillsIff(g, i, off, n); }
      if i < 0 { MulLess(i, 0, g.bs); }
  }

  /** MarkCovering adds a block exactly when the span has a byte of it. */
  lemma MarkCoveringIsExact(g: Grid, off: int, n: int, i: int)
    requires Wf(g)
    ensures i in MarkOutward(g, off, n).marks <==> i in g.marks || Touches(g, i, off, n)
  {
    BlockSpanIsExact(g, off, n, i);
  }

  lemma MarksStayInFile(g: Grid, off: int, n: int)
    requires Wf(g)
    ensures Wf(MarkInward(g, off, n)) && Wf(MarkOutward(g, off, n))
  {
    forall i | i in MarkInward(g, off, n).marks ensures 0 <= i < NumBlocks(g.size, g.bs) { MarkIsExact(g, off, n, i); }
    forall i | i in MarkOutward(g, off, n).marks ensures 0 <= i < NumBlocks(g.size, g.bs) {
      MarkCoveringIsExact(g, off, n, i);
      if i !in g.marks { TouchedBlockExists(g, i, off, n); }
    }
  }

  lemma BlocksGrow(small: int, big: int, bs: int)
    requires bs > 0 && 0 <= small <= big
    ensures 0 <= NumBlocks(small, bs) <= NumBlocks(big, bs)
  {
    RoundUp(small, bs, NumBlocks(big, bs));
    RoundUp(big, bs, NumBlocks(big, bs));
    RoundUp(small, bs, -1);
  }

  /** Growing and joining leave no mark past the last block either. */
  lemma GrowthStaysInFile(g: Grid, size: int, other: Grid)
    requires Wf(g) && Wf(other)
    ensures Wf(GrowTo(g, size)) && Wf(UnionOf(g, other))
  {
    if size > g.size { BlocksGrow(g.size, size, g.bs); }
    if g.bs == other.bs {
      if other.size > g.size { BlocksGrow(g.size, other.size, g.bs); } else { BlocksGrow(other.size, g.size, g.bs); }
    }
  }

  // ------------------------------------------------------------ asking

  function Missing(g: Grid, off: int, n: int): seq<Range>
    requires g.bs > 0
  {
    Runs(g, BlockSpan(g, off, n).0, BlockSpan(g, off, n).1, false)
  }

  function Extents(g: Grid): seq<Range>
    requires g.bs > 0
  {
    Runs(g, 0, NumBlocks(g.size, g.bs), true)
  }

  /** Every byte of the span that the file has is marked. */
  ghost predicate HasAll(g: Grid, off: int, n: int)
    requires g.bs > 0
  {
    forall b :: 0 <= b < g.size && off <= b < off + n ==> Marked(g, b)
  }

  lemma MissingIsExact(g: Grid, off: int, n: int)
    requires Wf(g)
    ensures ExactRuns(g, BlockSpan(g, off, n).0, BlockSpan(g, off, n).1, false, Missing(g, off, n))
  {
    BlockSpanBounds(g, off, n);
    RunsAreExact(g, BlockSpan(g, off, n).0, BlockSpan(g, off, n).1, false);
  }

  lemma ExtentsAreExact(g: Grid)
    requires Wf(g)
    ensures forall i :: 0 <= i < |Extents(g)| ==> Aligned(g, Extents(g)[i])
    ensures Apart(Extents(g))
    ensures forall b :: CoveredBy(Extents(g), b) <==> Marked(g, b)
  {
    var last := NumBlocks(g.size, g.bs);
    RunsAreExact(g, 0, last, true);
    forall b ensures CoveredBy(Extents(g), b) <==> Marked(g, b) { BlockBytes(g, b / g.bs, b); }
  }

  /** What Missing leaves out of a read's span is marked, and what it returns is not. */
  lemma MissingCovers(g: Grid, off: int, n: int, b: int)
    requires Wf(g)
    ensures CoveredBy(Missing(g, off, n), b) <==> 0 <= b < g.size && Touches(g, b / g.bs, off, n) && !Marked(g, b)
  {
    MissingIsExact(g, off, n);
    BlockSpanIsExact(g, off, n, b / g.bs);
  }

  /** A read is covered exactly when nothing is missing. */
  lemma HasIffNothingMissing(g: Grid, off: int, n: int)
    requires Wf(g)
    ensures HasAll(g, off, n) <==> Missing(g, off, n) == []
  {
    var m := Missing(g, off, n);
    MissingIsExact(g, off, n);
    if m != [] {
      var b := m[0].off;
      assert Covers(m[0], b);
      MissingCovers(g, off, n, b);
      var t :| 0 <= t < g.size && t / g.bs == b / g.bs && off <= t < off + n;
      assert !Marked(g, t);
    } else {
      forall b | 0 <= b < g.size && off <= b < off + n ensures Marked(g, b) {
        assert Touches(g, b / g.bs, off, n);
        assert !CoveredBy(m, b);
        MissingCovers(g, off, n, b);
      }
    }
  }

  /** Over the whole file, every byte is in exactly one of the extents and the missing ranges. */
  lemma Partition(g: Grid, b: int)
    requires Wf(g)
    ensures 0 <= b < g.size <==> CoveredBy(Extents(g), b) || CoveredBy(Missing(g, 0, g.size), b)
    ensures !(CoveredBy(Extents(g), b) && CoveredBy(Missing(g, 0, g.size), b))
  {
    ExtentsAreExact(g);
    MissingCovers(g, 0, g.size, b);
    if 0 <= b < g.size { assert Touches(g, b / g.bs, 0, g.size); }
  }

  // ------------------------------------------------------------ counting

  function SumLen(rs: seq<Range>): int {
    if rs == [] then 0 else rs[0].len + SumLen(rs[1..])
  }

  /** How many bytes from lo on are marked. */
  ghost function MarkedBytes(g: Grid, lo: int): (c: nat)
    requires g.bs > 0
    decreases g.size - lo
  {
    if lo >= g.size then 0 else (if Marked(g, lo) then 1 else 0) + MarkedBytes(g, lo + 1)
  }

  lemma {:induction false} CountStretch(g: Grid, lo: int, hi: int, all: bool)
    requires g.bs > 0 && lo <= hi <= g.size && forall b :: lo <= b < hi ==> Marked(g, b) == all
    ensures MarkedBytes(g, lo) == (if all then hi - lo else 0) + MarkedBytes(g, hi)
    decreases hi - lo
  {
    if lo < hi { CountStretch(g, lo + 1, hi, all); }
  }

  lemma {:induction false} SumIsCount(g: Grid, rs: seq<Range>, lo: int)
    requires g.bs > 0 && 0 <= lo <= g.size && Apart(rs)
    requires forall i :: 0 <= i < |rs| ==> rs[i].len > 0 && lo <= rs[i].off && rs[i].off + rs[i].len <= g.size
    requires forall b :: b >= lo ==> (CoveredBy(rs, b) <==> Marked(g, b))
    ensures SumLen(rs) == MarkedBytes(g, lo)
    decreases |rs|
  {
    if rs == [] {
      CountStretch(g, lo, g.size, false);
    } else {
      var r := rs[0];
      var end := r.off + r.len;
      forall b | lo <= b < end ensures Marked(g, b) == (b >= r.off) { CoverHead(rs, b); }
      CountStretch(g, lo, r.off, false);
      CountStretch(g, r.off, end, true);
      forall b | b >= end ensures CoveredBy(rs[1..], b) <==> Marked(g, b) { CoverTail(rs, b); }
      SumIsCount(g, rs[1..], end);
    }
  }

  /** Bytes is the number of marked bytes. */
  lemma BytesIsCount(g: Grid)
    requires Wf(g)
    ensures SumLen(Extents(g)) == MarkedBytes(g, 0)
  {
    ExtentsAreExact(g);
    SumIsCount(g, Extents(g), 0);
  }

  // ------------------------------------------------------------ round trips

  function MarkEach(g: Grid, rs: seq<Range>): (marked: Grid)
    requires g.bs > 0
    ensures marked.bs == g.bs && marked.size == g.size
    decreases |rs|
  {
    if rs == [] then g else MarkInward(MarkEach(g, rs[..|rs| - 1]), rs[|rs| - 1].off, rs[|rs| - 1].len)
  }

  /** An aligned range touches only blocks it fills. */
  lemma AlignedFills(g: Grid, r: Range, i: int)
    requires Wf(g) && Aligned(g, r)
    ensures Fills(g, i, r.off, r.len) <==> Touches(g, i, r.off, r.len)
  {
    TouchesIff(g, i, r.off, r.len);
    if Touches(g, i, r.off, r.len) {
      TouchedBlockExists(g, i, r.off, r.len);
      FillsIff(g, i, r.off, r.len);
      AlignedAt(r.off, g.bs, i);
      if (r.off + r.len) % g.bs == 0 { AlignedAt(r.off + r.len, g.bs, i); }
    } else if Fills(g, i, r.off, r.len) {
      FillsIff(g, i, r.off, r.len);
      BlockBytes(g, i, i * g.bs);
    }
  }

  /** A multiple of the block size is never strictly inside a block. */
  lemma AlignedAt(b: int, bs: int, i: int)
    requires bs > 0 && b % bs == 0
    ensures b <= i * bs || i * bs + bs <= b
  {
    assert b == b / bs * bs;
    MulLess(i, b / bs, bs);
    MulLess(b / bs, i, bs);
  }

  lemma {:induction false} MarkEachIsExact(g: Grid, rs: seq<Range>, i: int)
    requires Wf(g) && forall k :: 0 <= k < |rs| ==> Aligned(g, rs[k])
    ensures Wf(MarkEach(g, rs))
    ensures i in MarkEach(g, rs).marks <==> i in g.marks || exists k :: 0 <= k < |rs| && Touches(g, i, rs[k].off, rs[k].len)
    decreases |rs|
  {
    if rs != [] {
      var n := |rs| - 1;
      MarkEachIsExact(g, rs[..n], i);
      var w := MarkEach(g, rs[..n]);
      MarkIsExact(w, rs[n].off, rs[n].len, i);
      MarksStayInFile(w, rs[n].off, rs[n].len);
      AlignedFills(w, rs[n], i);
      if k :| 0 <= k < n && Touches(g, i, rs[k].off, rs[k].len) { assert rs[..n][k] == rs[k]; }
    }
  }

  /** Fetching what is missing and marking it, range by range, is enough for the read. */
  lemma FetchMissing(g: Grid, off: int, n: int)
    requires Wf(g)
    ensures HasAll(MarkEach(g, Missing(g, off, n)), off, n)
    ensures forall i :: i in g.marks ==> i in MarkEach(g, Missing(g, off, n)).marks
  {
    var m := Missing(g, off, n);
    MissingIsExact(g, off, n);
    forall i | i in g.marks ensures i in MarkEach(g, m).marks { MarkEachIsExact(g, m, i); }
    MarkEachIsExact(g, m, 0);
    forall b | 0 <= b < g.size && off <= b < off + n ensures b / g.bs in MarkEach(g, m).marks {
      MarkEachIsExact(g, m, b / g.bs);
      assert Touches(g, b / g.bs, off, n);
      MissingCovers(g, off, n, b);
      if b / g.bs !in g.marks {
        var k :| 0 <= k < |m| && Covers(m[k], b);
        assert Touches(g, b / g.bs, m[k].off, m[k].len);
      }
    }
  }

  function Fresh(size: int, bs: int): Grid { Grid(bs, size, {}) }

  /** The extents say everything: marking them on a fresh set of the same shape rebuilds the marks. */
  lemma RebuildFromExtents(g: Grid)
    requires Wf(g)
    ensures MarkEach(Fresh(g.size, g.bs), Extents(g)) == g
  {
    var f, xs := Fresh(g.size, g.bs), Extents(g);
    ExtentsAreExact(g);
    assert forall k :: 0 <= k < |xs| ==> Aligned(f, xs[k]);
    MarkEachIsExact(f, xs, 0);
    forall i ensures i in MarkEach(f, xs).marks <==> i in g.marks {
      MarkEachIsExact(f, xs, i);
      if i in g.marks {
        BlockBytes(g, i, i * g.bs);
        assert Marked(g, i * g.bs);
        var k :| 0 <= k < |xs| && Covers(xs[k], i * g.bs);
        assert Touches(f, i, xs[k].off, xs[k].len);
      }
      if k :| 0 <= k < |xs| && Touches(f, i, xs[k].off, xs[k].len) {
        var b :| 0 <= b < g.size && b / g.bs == i && xs[k].off <= b < xs[k].off + xs[k].len;
        assert CoveredBy(xs, b);
      }
    }
  }
}
