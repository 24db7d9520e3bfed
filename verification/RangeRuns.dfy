/**
 What the two roundings are worth over a whole run: a dirty set never omits a byte
 that was written, and a present set never claims a byte that was not supplied,
 unless it was grown past a short last block that was already marked.
 */
module RangeRuns {
  import opened Arithmetic
  import opened Ranges

  const DEFAULT_BLOCK_SIZE := 0x40_0000

  /** A new set: a size below zero is zero, a block size that is not positive is the default. */
  function NewGrid(size: int, blockSize: int): (g: Grid)
    ensures Wf(g)
  {
    Fresh(if size < 0 then 0 else size, if blockSize <= 0 then DEFAULT_BLOCK_SIZE else blockSize)
  }

  // ------------------------------------------------------------ dirty: outward

  /** How a dirty set came to be; a write grows the file to its own end first. */
  datatype Dirty =
    | Opened(size: int, blockSize: int)
    | Extended(before: Dirty, size: int)
    | Wrote(before: Dirty, off: nat, n: nat)
    | Joined(before: Dirty, other: Dirty)

  ghost function DirtyGrid(d: Dirty): (g: Grid)
    ensures Wf(g)
    decreases d
  {
    match d
    case Opened(size, blockSize) => NewGrid(size, blockSize)
    case Extended(before, size) =>
      GrowthStaysInFile(DirtyGrid(before), size, DirtyGrid(before));
      GrowTo(DirtyGrid(before), size)
    case Wrote(before, off, n) =>
      GrowthStaysInFile(DirtyGrid(before), off + n, DirtyGrid(before));
      MarksStayInFile(GrowTo(DirtyGrid(before), off + n), off, n);
      MarkOutward(GrowTo(DirtyGrid(before), off + n), off, n)
    case Joined(before, other) =>
      GrowthStaysInFile(DirtyGrid(before), 0, DirtyGrid(other));
      UnionOf(DirtyGrid(before), DirtyGrid(other))
  }

  /** The bytes written, those of a refused union left to the caller. */
  ghost predicate WasWritten(d: Dirty, b: int)
    decreases d
  {
    match d
    case Opened(_, _) => false
    case Extended(before, _) => WasWritten(before, b)
    case Wrote(before, off, n) => WasWritten(before, b) || off <= b < off + n
    case Joined(before, other) =>
      WasWritten(before, b) || (DirtyGrid(before).bs == DirtyGrid(other).bs && WasWritten(other, b))
  }

  /** Every written byte lies in a marked block of the file. */
  lemma {:induction false} WrittenIsMarked(d: Dirty, b: int)
    requires WasWritten(d, b)
    ensures Marked(DirtyGrid(d), b)
    decreases d
  {
    match d
    case Opened(_, _) =>
    case Extended(before, size) =>
      WrittenIsMarked(before, b);
    case Wrote(before, off, n) =>
      var g := GrowTo(DirtyGrid(before), off + n);
      GrowthStaysInFile(DirtyGrid(before), off + n, DirtyGrid(before));
      MarkCoveringIsExact(g, off, n, b / g.bs);
      if off <= b < off + n {
        assert Touches(g, b / g.bs, off, n);
      } else {
        WrittenIsMarked(before, b);
      }
    case Joined(before, other) =>
      if WasWritten(before, b) {
        WrittenIsMarked(before, b);
      } else {
        WrittenIsMarked(other, b);
      }
  }

  ghost predicate HasWritten(d: Dirty, i: int) {
    exists b :: WasWritten(d, b) && b / DirtyGrid(d).bs == i
  }

  lemma {:induction false} MarkedHasWrite(d: Dirty, i: int)
    requires i in DirtyGrid(d).marks
    ensures HasWritten(d, i)
    decreases d
  {
    match d
    case Opened(_, _) =>
    case Extended(before, size) =>
      MarkedHasWrite(before, i);
      var b :| WasWritten(before, b) && b / DirtyGrid(before).bs == i;
      assert WasWritten(d, b);
    case Wrote(before, off, n) =>
      var g := GrowTo(DirtyGrid(before), off + n);
      GrowthStaysInFile(DirtyGrid(before), off + n, DirtyGrid(before));
      MarkCoveringIsExact(g, off, n, i);
      if i in g.marks {
        MarkedHasWrite(before, i);
        var b :| WasWritten(before, b) && b / DirtyGrid(before).bs == i;
        assert WasWritten(d, b);
      } else {
        var b :| 0 <= b < g.size && b / g.bs == i && off <= b < off + n;
        assert WasWritten(d, b);
      }
    case Joined(before, other) =>
      if i in DirtyGrid(before).marks {
        MarkedHasWrite(before, i);
        var b :| WasWritten(before, b) && b / DirtyGrid(before).bs == i;
        assert WasWritten(d, b);
      } else {
        MarkedHasWrite(other, i);
        var b :| WasWritten(other, b) && b / DirtyGrid(other).bs == i;
        assert WasWritten(d, b);
      }
  }

  /** A block is dirty exactly when some byte of it was written. */
  lemma DirtyIff(d: Dirty, i: int)
    ensures i in DirtyGrid(d).marks <==> HasWritten(d, i)
  {
    if i in DirtyGrid(d).marks { MarkedHasWrite(d, i); }
    if HasWritten(d, i) {
      var b :| WasWritten(d, b) && b / DirtyGrid(d).bs == i;
      WrittenIsMarked(d, b);
    }
  }

  /** So a ranged upload of the extents carries every byte that was written. */
  lemma UploadCarriesEveryWrite(d: Dirty, b: int)
    requires WasWritten(d, b)
    ensures CoveredBy(Extents(DirtyGrid(d)), b)
  {
    WrittenIsMarked(d, b);
    ExtentsAreExact(DirtyGrid(d));
  }

  // ------------------------------------------------------------ present: inward

  /** A run of fetches into a set whose size is fixed: the ranges supplied so far. */
  ghost predicate Supplied(rs: seq<Range>, b: int) { CoveredBy(rs, b) }

  /** One supply, on its own, fills the block. */
  ghost predicate FilledByOne(g: Grid, rs: seq<Range>, i: int)
    requires g.bs > 0
  {
    exists k :: 0 <= k < |rs| && Fills(g, i, rs[k].off, rs[k].len)
  }

  /** At a fixed size a block is present exactly when it was, or a single supply held all of it. */
  lemma {:induction false} PresentIff(g: Grid, rs: seq<Range>, i: int)
    requires Wf(g)
    ensures Wf(MarkEach(g, rs))
    ensures i in MarkEach(g, rs).marks <==> i in g.marks || FilledByOne(g, rs, i)
    decreases |rs|
  {
    if rs != [] {
      var n := |rs| - 1;
      var w := MarkEach(g, rs[..n]);
      PresentIff(g, rs[..n], i);
      MarkIsExact(w, rs[n].off, rs[n].len, i);
      MarksStayInFile(w, rs[n].off, rs[n].len);
      assert Fills(w, i, rs[n].off, rs[n].len) <==> Fills(g, i, rs[n].off, rs[n].len);
      if FilledByOne(g, rs[..n], i) {
        var k :| 0 <= k < n && Fills(g, i, rs[..n][k].off, rs[..n][k].len);
        assert rs[..n][k] == rs[k];
      }
      if FilledByOne(g, rs, i) && !Fills(g, i, rs[n].off, rs[n].len) {
        var k :| 0 <= k < |rs| && Fills(g, i, rs[k].off, rs[k].len);
        assert rs[..n][k] == rs[k];
      }
    }
  }

  /** Every byte a present set claims was supplied. */
  lemma PresentWasSupplied(size: int, blockSize: int, rs: seq<Range>, b: int)
    requires Marked(MarkEach(NewGrid(size, blockSize), rs), b)
    ensures Supplied(rs, b)
  {
    var g := NewGrid(size, blockSize);
    PresentIff(g, rs, b / g.bs);
    var k :| 0 <= k < |rs| && Fills(g, b / g.bs, rs[k].off, rs[k].len);
    assert Covers(rs[k], b);
  }

  /** The last block, when the file stops in the middle of it. */
  ghost predicate ShortTailMarked(g: Grid)
    requires g.bs > 0
  {
    g.size % g.bs != 0 && g.size / g.bs in g.marks
  }

  /** Growing claims no new byte exactly when it does not move past a short last block that is marked. */
  lemma GrowClaimsNothingIff(g: Grid, size: int)
    requires Wf(g)
    ensures (forall b :: Marked(GrowTo(g, size), b) ==> Marked(g, b)) <==> size <= g.size || !ShortTailMarked(g)
  {
    var w, last := GrowTo(g, size), g.size / g.bs;
    if size > g.size {
      InBlock(g.size, g.bs, last);
      if ShortTailMarked(g) {
        assert Marked(w, g.size) && !Marked(g, g.size);
      } else {
        forall b | Marked(w, b) ensures Marked(g, b) {
          BlockBytes(g, b / g.bs, g.size - 1);
          InBlock(b, g.bs, b / g.bs);
          if b >= g.size {
            RoundUp(g.size, g.bs, b / g.bs);
            RoundDown(g.size, g.bs, b / g.bs);
            TailBlock(g, b / g.bs);
          }
        }
      }
    }
  }

  /** A block of the file whose byte interval passes the end of it is the short last one. */
  lemma TailBlock(g: Grid, i: int)
    requires Wf(g) && i in g.marks && g.size < i * g.bs + g.bs
    ensures ShortTailMarked(g)
  {
    RoundUp(g.size, g.bs, i);
    InBlock(g.size, g.bs, i);
    assert i * g.bs < g.size;
    assert g.size == g.size / g.bs * g.bs + g.size % g.bs;
  }

  /** The case that breaks it: six bytes in blocks of four, all present, grown to eight. */
  lemma GrowPastShortTailClaims()
    ensures var g := MarkEach(NewGrid(6, 4), [Range(0, 6)]);
      Marked(GrowTo(g, 8), 7) && !Supplied([Range(0, 6)], 7)
  {
    var g := NewGrid(6, 4);
    var rs := [Range(0, 6)];
    assert MarkEach(g, rs) == MarkInward(MarkEach(g, rs[..0]), 0, 6);
    assert 1 in MarkEach(g, rs).marks;
  }
}
