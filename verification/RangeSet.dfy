/**
 The set itself: one bit per block, packed eight to a byte and set in place. Each
 method is tied to the grid it describes.
 */
module RangeSet {
  import opened Arithmetic
  import opened Ranges
  import opened RangeRuns

  /** 1 << j. */
  function Mask(j: int): bv8
    requires 0 <= j < 8
  {
    match j
    case 0 => 1
    case 1 => 2
    case 2 => 4
    case 3 => 8
    case 4 => 16
    case 5 => 32
    case 6 => 64
    case 7 => 128
  }

  predicate BitOn(b: bv8, k: int)
    requires 0 <= k < 8
  {
    b & Mask(k) != 0
  }

  function WithBit(b: bv8, j: int): bv8
    requires 0 <= j < 8
  {
    b | Mask(j)
  }

  /** Setting bit j of a byte makes that bit read as set and no other bit read differently. */
  lemma SetBit(b: bv8, j: int, k: int)
    requires 0 <= j < 8 && 0 <= k < 8
    ensures BitOn(WithBit(b, j), k) <==> j == k || BitOn(b, k)
  {
    assert (b | Mask(j)) & Mask(k) == (b & Mask(k)) | (Mask(j) & Mask(k));
    MasksMeet(j, k);
  }

  lemma MasksMeet(j: int, k: int)
    requires 0 <= j < 8 && 0 <= k < 8
    ensures Mask(k) != 0 && Mask(j) & Mask(k) == if j == k then Mask(k) else 0
  {
  }

  /** Two block numbers name the same bit exactly when they are the same. */
  lemma SameBit(i: int, j: int)
    requires 0 <= i && 0 <= j
    ensures i == j <==> i / 8 == j / 8 && i % 8 == j % 8
  {
  }

  /** The bytes a bitmap of this many blocks takes. */
  function BytesFor(blocks: int): int { (blocks + 7) / 8 }

  class BlockSet {
    var blockSize: int
    var size: int
    var bits: array<bv8>

    function Bs(): (bs: int)
      reads this
      ensures bs > 0
    {
      if blockSize <= 0 then DEFAULT_BLOCK_SIZE else blockSize
    }

    function Blocks(): int
      reads this
    {
      NumBlocks(size, Bs())
    }

    predicate HasBlock(i: int)
      reads this, bits
    {
      0 <= i && i / 8 < bits.Length && BitOn(bits[i / 8], i % 8)
    }

    /** The array is just long enough, and the bits past the last block are clear. */
    ghost predicate Valid()
      reads this, bits
    {
      && size >= 0 && bits.Length == BytesFor(Blocks())
      && forall i :: HasBlock(i) ==> i < Blocks()
    }

    ghost function View(): (g: Grid)
      requires Valid()
      reads this, bits
      ensures Wf(g) && forall i :: i in g.marks <==> HasBlock(i)
    {
      Grid(Bs(), size, set i | 0 <= i < Blocks() && HasBlock(i))
    }

    constructor (size: int, blockSize: int)
      ensures Valid() && fresh(bits) && View() == NewGrid(size, blockSize)
    {
      this.blockSize := if blockSize <= 0 then DEFAULT_BLOCK_SIZE else blockSize;
      this.size := if size < 0 then 0 else size;
      var blocks := NumBlocks(if size < 0 then 0 else size, if blockSize <= 0 then DEFAULT_BLOCK_SIZE else blockSize);
      BlocksGrow(0, if size < 0 then 0 else size, if blockSize <= 0 then DEFAULT_BLOCK_SIZE else blockSize);
      this.bits := new bv8[BytesFor(blocks)](_ => 0);
      new;
      assert View().marks == {};
    }

    method SetBlock(i: int)
      modifies bits
      ensures forall j :: HasBlock(j) <==> old(HasBlock(j)) || (j == i && 0 <= i && i / 8 < bits.Length)
    {
      var idx := i / 8;
      if i < 0 || idx >= bits.Length { return; }
      bits[idx] := WithBit(bits[idx], i % 8);
      forall j ensures HasBlock(j) <==> old(HasBlock(j)) || j == i {
        if 0 <= j && j / 8 == idx { SetBit(old(bits[idx]), i % 8, j % 8); SameBit(i, j); }
      }
    }

    /** Blocks [first, last) of the file, one by one. */
    method SetBlocks(first: int, last: int)
      requires Valid() && 0 <= first && last <= Blocks()
      modifies bits
      ensures Valid() && View() == old(View()).(marks := old(View().marks) + BlockNumbers(first, last))
    {
      var i := first;
      while i < last
        invariant first <= i
        invariant i <= last || i == first
        invariant forall j :: HasBlock(j) <==> old(HasBlock(j)) || first <= j < i
      {
        SetBlock(i);
        i := i + 1;
      }
    }

    method Grow(newSize: int)
      requires Valid()
      modifies this
      ensures Valid() && View() == GrowTo(old(View()), newSize) && blockSize == old(blockSize)
      ensures size == (if old(size) < newSize then newSize else old(size)) && View().marks == old(View().marks)
      ensures bits == old(bits) || fresh(bits)
    {
      if newSize <= size { return; }
      BlocksGrow(size, newSize, Bs());
      size := newSize;
      var need := BytesFor(Blocks());
      if bits.Length < need {
        var short := bits;
        bits := new bv8[need](i requires 0 <= i < need reads this, bits => if i < bits.Length then bits[i] else 0);
        forall j ensures HasBlock(j) <==> old(HasBlock(j)) {
          if 0 <= j && j / 8 < short.Length { assert bits[j / 8] == short[j / 8]; }
          if 0 <= j && short.Length <= j / 8 < need { assert bits[j / 8] == 0; }
        }
      }
      assert forall j :: HasBlock(j) <==> old(HasBlock(j));
      assert View().marks == old(View().marks);
    }

    method Span(off: int, n: int) returns (first: int, last: int)
      requires Valid()
      ensures (first, last) == BlockSpan(View(), off, n)
    {
      match Clamp(size, off, n)
      case Outside => first, last := 0, 0;
      case Within(start, end) => first, last := start / Bs(), (end + Bs() - 1) / Bs();
    }

    /** Every byte of the span the file has is marked. */
    method Has(off: int, n: int) returns (all: bool)
      requires Valid()
      ensures all <==> HasAll(View(), off, n)
    {
      var first, last := Span(off, n);
      BlockSpanBounds(View(), off, n);
      AllBlocksIffHas(View(), off, n);
      all := AllSet(first, last);
    }

    method AllSet(first: int, last: int) returns (all: bool)
      requires Valid() && first <= last
      ensures all <==> forall i :: first <= i < last ==> i in View().marks
    {
      for i := first to last
        invariant forall j :: first <= j < i ==> HasBlock(j)
      {
        if !HasBlock(i) {
          assert i !in View().marks;
          return false;
        }
      }
      all := true;
    }

    /** The inner loop of runs: on from block i while the state is the wanted one. */
    method StretchEnd(start: int, last: int, want: bool) returns (e: int)
      requires Valid() && start < last && HasBlock(start) == want && 0 <= start && last <= Blocks()
      ensures start < e == RunEnd(View().marks, start, last, want)
    {
      ghost var marks := View().marks;
      e := start;
      while e < last && HasBlock(e) == want
        invariant start <= e <= last && RunEnd(marks, e, last, want) == RunEnd(marks, start, last, want)
      {
        e := e + 1;
      }
    }

    method WalkRuns(first: int, last: int, want: bool) returns (out: seq<Range>)
      requires Valid() && 0 <= first <= last <= Blocks()
      ensures out == Runs(View(), first, last, want)
    {
      out := [];
      ghost var g, all := View(), Runs(View(), first, last, want);
      var i := first;
      while i < last
        invariant first <= i <= last && out + Runs(g, i, last, want) == all
      {
        if HasBlock(i) != want {
          i := i + 1;
          continue;
        }
        var start := i;
        i := StretchEnd(start, last, want);
        var r := ByteRange(start, i);
        RunsUnfold(g, out, start, i, last, want);
        out := out + [r];
      }
    }

    method ByteRange(start: int, e: int) returns (r: Range)
      requires Valid()
      ensures r == RunRange(View(), start, e)
    {
      var begin, end := start * Bs(), e * Bs();
      if end > size { end := size; }
      r := Range(begin, end - begin);
    }

    method MissingIn(off: int, n: int) returns (out: seq<Range>)
      requires Valid()
      ensures out == Missing(View(), off, n)
      ensures ExactRuns(View(), BlockSpan(View(), off, n).0, BlockSpan(View(), off, n).1, false, out)
    {
      var first, last := Span(off, n);
      BlockSpanBounds(View(), off, n);
      out := WalkRuns(first, last, false);
      MissingIsExact(View(), off, n);
    }

    method MarkedExtents() returns (out: seq<Range>)
      requires Valid()
      ensures out == Extents(View())
      ensures ExactRuns(View(), 0, NumBlocks(View().size, View().bs), true, out)
    {
      BlocksGrow(0, size, Bs());
      out := WalkRuns(0, Blocks(), true);
      RunsAreExact(View(), 0, Blocks(), true);
    }

    method Bytes() returns (total: int)
      requires Valid()
      ensures total == MarkedBytes(View(), 0)
    {
      var xs := MarkedExtents();
      total := 0;
      BytesIsCount(View());
      for i := 0 to |xs|
        invariant total + SumLen(xs[i..]) == SumLen(xs)
      {
        assert xs[i..][1..] == xs[i + 1..];
        total := total + xs[i].len;
      }
    }

    method Mark(off: int, n: int)
      requires Valid()
      modifies bits
      ensures Valid() && View() == MarkInward(old(View()), off, n)
    {
      match Clamp(size, off, n)
      case Outside =>
      case Within(start, end) =>
        var first, last := (start + Bs() - 1) / Bs(), end / Bs();
        InwardBounds(View(), start, end);
        if end == size { last := Blocks(); }
        SetBlocks(first, last);
    }

    method MarkCovering(off: int, n: int)
      requires Valid()
      modifies bits
      ensures Valid() && View() == MarkOutward(old(View()), off, n)
    {
      match Clamp(size, off, n)
      case Outside =>
      case Within(start, end) =>
        BlockSpanBounds(View(), off, n);
        SetBlocks(start / Bs(), (end + Bs() - 1) / Bs());
    }

    /** Marking the whole file leaves no byte unmarked. */
    method MarkAll()
      requires Valid()
      modifies bits
      ensures Valid() && View() == MarkInward(old(View()), 0, size)
      ensures HasAll(View(), 0, size)
    {
      ghost var g := View();
      Mark(0, size);
      forall b | 0 <= b < size ensures Marked(View(), b) {
        BlockBytes(g, b / g.bs, b);
        MarkIsExact(g, 0, size, b / g.bs);
      }
    }

    /** False, and nothing marked, when the two are not cut into the same blocks. */
    method Union(other: BlockSet) returns (ok: bool)
      requires Valid() && other.Valid()
      modifies this, bits
      ensures Valid() && View() == UnionOf(old(View()), old(other.View()))
      ensures ok <==> old(Bs()) == old(other.Bs())
      ensures ok ==> View().marks == old(View().marks) + old(other.View().marks) && Bs() == old(Bs())
      ensures ok ==> size == if old(size) < old(other.size) then old(other.size) else old(size)
      ensures !ok ==> View() == old(View())
      ensures bits == old(bits) || fresh(bits)
    {
      if Bs() != other.Bs() { return false; }
      ok := true;
      ghost var g, o := View(), other.View();
      GrowthStaysInFile(g, 0, o);
      var n := other.Blocks();
      Grow(other.size);
      BlocksGrow(o.size, size, Bs());
      ghost var grown := View();
      FoldMarks(other, n);
      assert View().marks == grown.marks + o.marks;
    }

    /** The first n blocks of another set, which may be this one or share its array. */
    method FoldMarks(other: BlockSet, n: int)
      requires Valid() && 0 <= n <= Blocks()
      modifies bits
      ensures Valid()
      ensures forall j :: HasBlock(j) <==> old(HasBlock(j)) || (j < n && old(other.HasBlock(j)))
    {
      for i := 0 to n
        invariant forall j :: HasBlock(j) <==> old(HasBlock(j)) || (j < i && old(other.HasBlock(j)))
        invariant forall j :: j >= i ==> (other.HasBlock(j) <==> old(other.HasBlock(j)))
      {
        if other.HasBlock(i) {
          SetBlock(i);
          assert other.bits == bits ==> forall j :: other.HasBlock(j) == HasBlock(j);
        }
      }
    }

    method Complete() returns (all: bool)
      requires Valid()
      ensures all <==> HasAll(View(), 0, size)
    {
      BlocksGrow(0, size, Bs());
      CompleteIff(View());
      all := AllSet(0, Blocks());
    }

    /** A zero-length file is complete, never empty. */
    method IsEmpty() returns (none: bool)
      requires Valid()
      ensures none <==> size > 0 && View().marks == {}
    {
      BlocksGrow(0, size, Bs());
      RoundUp(size, Bs(), 0);
      if Blocks() == 0 { return false; }
      for i := 0 to Blocks()
        invariant forall j :: 0 <= j < i ==> j !in View().marks
      {
        if HasBlock(i) {
          assert i in View().marks;
          return false;
        }
      }
      none := true;
      assert View().marks == {};
    }

    /** A copy whose bits are its own. */
    method Clone() returns (c: BlockSet)
      requires Valid()
      ensures c.Valid() && c.View() == View() && fresh(c) && fresh(c.bits)
    {
      c := new BlockSet(size, Bs());
      for i := 0 to bits.Length
        invariant c.size == size && c.Bs() == Bs() && fresh(c.bits) && c.bits.Length == bits.Length && c.bits != bits
        invariant forall j :: 0 <= j < i ==> c.bits[j] == bits[j]
      {
        c.bits[i] := bits[i];
      }
      assert forall i :: c.HasBlock(i) <==> HasBlock(i);
      assert c.View().marks == View().marks;
    }
  }

  lemma RunsUnfold(g: Grid, out: seq<Range>, start: int, e: int, last: int, want: bool)
    requires start <= last && start < e == RunEnd(g.marks, start, last, want) && (start in g.marks) == want
    ensures out + Runs(g, start, last, want) == out + [RunRange(g, start, e)] + Runs(g, e, last, want)
  {
    assert Runs(g, start, last, want) == [RunRange(g, start, e)] + Runs(g, e, last, want);
    assert out + ([RunRange(g, start, e)] + Runs(g, e, last, want)) == out + [RunRange(g, start, e)] + Runs(g, e, last, want);
  }

  lemma InwardBounds(g: Grid, start: int, end: int)
    requires Wf(g) && 0 <= start < end <= g.size
    ensures 0 <= (start + g.bs - 1) / g.bs && end / g.bs <= NumBlocks(g.size, g.bs)
  {
    RoundUp(start, g.bs, -1);
    RoundDown(end, g.bs, end / g.bs);
    RoundUp(g.size, g.bs, NumBlocks(g.size, g.bs));
    MulLess(NumBlocks(g.size, g.bs), end / g.bs, g.bs);
  }

  lemma AllBlocksIffHas(g: Grid, off: int, n: int)
    requires Wf(g)
    ensures (forall i :: BlockSpan(g, off, n).0 <= i < BlockSpan(g, off, n).1 ==> i in g.marks) <==> HasAll(g, off, n)
  {
    forall i | BlockSpan(g, off, n).0 <= i < BlockSpan(g, off, n).1 && HasAll(g, off, n) ensures i in g.marks {
      BlockSpanIsExact(g, off, n, i);
      var b :| 0 <= b < g.size && b / g.bs == i && off <= b < off + n;
      assert Marked(g, b);
    }
    forall b | 0 <= b < g.size && off <= b < off + n
      ensures BlockSpan(g, off, n).0 <= b / g.bs < BlockSpan(g, off, n).1
    {
      assert Touches(g, b / g.bs, off, n);
      BlockSpanIsExact(g, off, n, b / g.bs);
    }
  }

  lemma CompleteIff(g: Grid)
    requires Wf(g)
    ensures (forall i :: 0 <= i < NumBlocks(g.size, g.bs) ==> i in g.marks) <==> HasAll(g, 0, g.size)
  {
    forall i | 0 <= i < NumBlocks(g.size, g.bs) && HasAll(g, 0, g.size) ensures i in g.marks {
      BlockBytes(g, i, i * g.bs);
      assert Marked(g, i * g.bs);
    }
    forall b | 0 <= b < g.size ensures 0 <= b / g.bs < NumBlocks(g.size, g.bs) { BlockBytes(g, b / g.bs, b); }
  }

  // ------------------------------------------------------------ 64-bit offsets

  const MIN64 := -0x8000_0000_0000_0000
  const MAX64 := 0x7FFF_FFFF_FFFF_FFFF

  /** What a 64-bit register keeps of a sum. */
  function Wrap64(x: int): int { (x - MIN64) % 0x1_0000_0000_0000_0000 + MIN64 }

  /** Clamp with the register's arithmetic. */
  function ClampWrapped(size: int, off: int, n: int): Clip {
    var n' := if off < 0 then Wrap64(n + off) else n;
    var start := if off < 0 then 0 else off;
    var sum := Wrap64(start + n');
    var end := if sum > size then size else sum;
    if n' <= 0 || size <= 0 || start >= end then Outside else Within(start, end)
  }

  /**
   The wrap-around shows exactly when a span that starts inside the file is so
   long that its end does not fit, or when a negative length takes a negative
   offset below the smallest integer; every other span is clamped exactly.
   */
  lemma WrapIsHarmlessIff(size: int, off: int, n: int)
    requires MIN64 <= size <= MAX64 && MIN64 <= off <= MAX64 && MIN64 <= n <= MAX64
    ensures ClampWrapped(size, off, n) == Clamp(size, off, n) <==>
            size <= 0 || (if off < 0 then n + off >= MIN64 || n + off == 2 * MIN64 else off + n <= MAX64 || off >= size)
  {
    if off < 0 {
      WrapBelow(n + off);
    } else if n > 0 {
      WrapAbove(off + n);
    }
  }

  lemma WrapBelow(x: int)
    requires 2 * MIN64 <= x <= MAX64
    ensures Wrap64(x) == if x < MIN64 then x - 2 * MIN64 else x
  {
  }

  lemma WrapAbove(x: int)
    requires 0 <= x <= 2 * MAX64
    ensures Wrap64(x) == if x > MAX64 then x + 2 * MIN64 else x
  {
  }
}
