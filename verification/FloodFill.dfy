/**
 cutout's fill: the paper reachable from the picture's border through neighbouring
 pixels that are near its colour.
 */
module FloodFill {
  import opened Raster

  /** Sharing an edge. */
  ghost predicate Adjacent(w: int, i: int, j: int)
    requires w > 0
  {
    var dx, dy := i % w - j % w, i / w - j / w;
    (dy == 0 && (dx == 1 || dx == -1)) || (dx == 0 && (dy == 1 || dy == -1))
  }

  ghost predicate OnBorder(w: int, h: int, i: int)
    requires w > 0
  {
    i % w == 0 || i % w == w - 1 || i / w == 0 || i / w == h - 1
  }

  /** A walk over near pixels, from the border, one edge at a time. */
  ghost predicate Walk(w: int, h: int, near: seq<bool>, p: seq<int>)
    requires w > 0 && |near| == w * h
  {
    && p != [] && (forall k :: 0 <= k < |p| ==> 0 <= p[k] < |near| && near[p[k]])
    && OnBorder(w, h, p[0])
    && forall k :: 0 <= k < |p| - 1 ==> Adjacent(w, p[k], p[k + 1])
  }

  /** Some such walk ends at pixel i. */
  ghost predicate Reached(w: int, h: int, near: seq<bool>, i: int)
    requires w > 0 && |near| == w * h
  {
    exists p :: Walk(w, h, near, p) && p[|p| - 1] == i
  }

  lemma BorderIsReached(w: int, h: int, near: seq<bool>, i: int)
    requires w > 0 && |near| == w * h && 0 <= i < |near| && near[i] && OnBorder(w, h, i)
    ensures Reached(w, h, near, i)
  {
    assert Walk(w, h, near, [i]);
  }

  lemma NeighbourIsReached(w: int, h: int, near: seq<bool>, i: int, j: int)
    requires w > 0 && |near| == w * h && 0 <= j < |near| && near[j] && Adjacent(w, i, j) && Reached(w, h, near, i)
    ensures Reached(w, h, near, j)
  {
    var p :| Walk(w, h, near, p) && p[|p| - 1] == i;
    var q := p + [j];
    forall k | 0 <= k < |q| - 1 ensures Adjacent(w, q[k], q[k + 1]) {
      if k < |p| - 1 { assert Adjacent(w, p[k], p[k + 1]); }
    }
    assert Walk(w, h, near, q) && q[|q| - 1] == j;
  }

  // ------------------------------------------------------------ what the fill keeps

  /** Every near neighbour of pixel i is marked. */
  ghost predicate Spread(w: int, near: seq<bool>, mark: seq<bool>, i: int)
    requires w > 0 && |near| == |mark|
  {
    forall j :: 0 <= j < |near| && near[j] && Adjacent(w, i, j) ==> mark[j]
  }

  ghost predicate Sound(w: int, h: int, near: seq<bool>, mark: seq<bool>, stack: seq<int>)
    requires w > 0 && |near| == w * h && |mark| == |near|
  {
    && (forall i :: 0 <= i < |mark| && mark[i] ==> Reached(w, h, near, i))
    && (forall k :: 0 <= k < |stack| ==> 0 <= stack[k] < |mark| && mark[stack[k]])
    && forall k, l :: 0 <= k < l < |stack| ==> stack[k] != stack[l]
  }

  /** Every pixel taken off the stack has been spread. */
  ghost predicate AllSpread(w: int, near: seq<bool>, mark: seq<bool>, done: set<int>)
    requires w > 0 && |near| == |mark|
  {
    forall i :: i in done ==> Spread(w, near, mark, i)
  }

  ghost predicate BorderMarked(w: int, h: int, near: seq<bool>, mark: seq<bool>)
    requires w > 0 && |near| == |mark|
  {
    forall i :: 0 <= i < |mark| && near[i] && OnBorder(w, h, i) ==> mark[i]
  }

  /** A marked set that holds the near border and is spread everywhere holds every reachable pixel. */
  lemma {:induction false} ClosedHoldsAll(w: int, h: int, near: seq<bool>, mark: seq<bool>, p: seq<int>)
    requires w > 0 && |near| == w * h && |mark| == |near| && BorderMarked(w, h, near, mark)
    requires forall i :: 0 <= i < |mark| && mark[i] ==> Spread(w, near, mark, i)
    requires Walk(w, h, near, p)
    ensures mark[p[|p| - 1]]
    decreases |p|
  {
    var n := |p| - 1;
    if n > 0 {
      ClosedHoldsAll(w, h, near, mark, p[..n]);
      assert Adjacent(w, p[n - 1], p[n - 1 + 1]);
      assert Spread(w, near, mark, p[n - 1]);
    }
  }

  /** The four pixels next to (x, y) are all there are. */
  lemma NeighboursAre(w: int, h: int, x: int, y: int, j: int)
    requires InPicture(w, h, x, y) && 0 <= j < w * h
    ensures Adjacent(w, Index(w, x, y), j) <==>
      || (x > 0 && j == Index(w, x - 1, y)) || (x < w - 1 && j == Index(w, x + 1, y))
      || (y > 0 && j == Index(w, x, y - 1)) || (y < h - 1 && j == Index(w, x, y + 1))
  {
    IndexInRange(w, h, x, y);
    Coordinates(w, h, j);
    if x > 0 { IndexInRange(w, h, x - 1, y); }
    if x < w - 1 { IndexInRange(w, h, x + 1, y); }
    if y > 0 { IndexInRange(w, h, x, y - 1); }
    if y < h - 1 { IndexInRange(w, h, x, y + 1); }
  }

  // ------------------------------------------------------------ one push

  /** push, on pixel i: marked and stacked if it is near and was not marked. */
  function MarkAfter(near: seq<bool>, mark: seq<bool>, i: int): seq<bool>
    requires |near| == |mark| && 0 <= i < |mark|
  {
    mark[i := mark[i] || near[i]]
  }

  function StackAfter(near: seq<bool>, mark: seq<bool>, stack: seq<int>, i: int): seq<int>
    requires |near| == |mark| && 0 <= i < |mark|
  {
    if !mark[i] && near[i] then stack + [i] else stack
  }

  lemma PushKeepsSound(w: int, h: int, near: seq<bool>, mark: seq<bool>, stack: seq<int>, i: int)
    requires w > 0 && |near| == w * h && |mark| == |near| && Sound(w, h, near, mark, stack) && 0 <= i < |mark|
    requires near[i] ==> Reached(w, h, near, i)
    ensures Sound(w, h, near, MarkAfter(near, mark, i), StackAfter(near, mark, stack, i))
  {
  }

  method Push(mark: array<bool>, stack: seq<int>, near: seq<bool>, w: int, h: int, x: int, y: int)
    returns (pushed: seq<int>)
    requires InPicture(w, h, x, y) && mark.Length == |near| == w * h && 0 <= Index(w, x, y) < w * h
    modifies mark
    ensures mark[..] == MarkAfter(near, old(mark[..]), Index(w, x, y))
    ensures pushed == StackAfter(near, old(mark[..]), stack, Index(w, x, y))
  {
    var i := Index(w, x, y);
    pushed := stack;
    if !mark[i] && near[i] {
      mark[i] := true;
      pushed := stack + [i];
    }
  }

  // ------------------------------------------------------------ the loops

  /** What holds from the first push to the end of the fill; `done` are the pixels taken off the stack. */
  ghost predicate Filling(w: int, h: int, near: seq<bool>, mark: seq<bool>, stack: seq<int>, done: set<int>)
    requires w > 0 && |near| == w * h && |mark| == |near|
  {
    && Sound(w, h, near, mark, stack)
    && (forall i :: i in done ==> 0 <= i < |mark| && mark[i] && i !in stack)
    && forall i :: 0 <= i < |mark| && mark[i] ==> i in stack || i in done
  }

  lemma PushKeepsFilling(w: int, h: int, near: seq<bool>, mark: seq<bool>, stack: seq<int>, done: set<int>, i: int)
    requires w > 0 && |near| == w * h && |mark| == |near| && 0 <= i < |mark| && Filling(w, h, near, mark, stack, done)
    requires near[i] ==> Reached(w, h, near, i)
    ensures Filling(w, h, near, MarkAfter(near, mark, i), StackAfter(near, mark, stack, i), done)
  {
    var s := StackAfter(near, mark, stack, i);
    PushKeepsSound(w, h, near, mark, stack, i);
    forall q ensures q in s <==> q in stack || (q == i && !mark[i] && near[i]) { }
  }

  /** Marks are never taken back. */
  ghost predicate Grows(before: seq<bool>, after: seq<bool>) {
    |before| == |after| && forall i :: 0 <= i < |before| && before[i] ==> after[i]
  }

  /** One pixel offered to the fill: nothing it keeps is lost, and afterwards the pixel is marked if near. */
  method Offer(mark: array<bool>, stack: seq<int>, near: seq<bool>, w: int, h: int, x: int, y: int,
               ghost done: set<int>, ghost pushes: nat)
    returns (pushed: seq<int>, ghost count: nat)
    requires InPicture(w, h, x, y) && mark.Length == |near| == w * h
    requires Filling(w, h, near, mark[..], stack, done) && pushes == |done| + |stack|
    requires near[Place(w, h, x, y)] ==> Reached(w, h, near, Place(w, h, x, y))
    modifies mark
    ensures Filling(w, h, near, mark[..], pushed, done) && count == |done| + |pushed|
    ensures Grows(old(mark[..]), mark[..])
    ensures near[Place(w, h, x, y)] ==> mark[Place(w, h, x, y)]
    ensures count == pushes + (if pushed == stack then 0 else 1)
  {
    IndexInRange(w, h, x, y);
    PushKeepsFilling(w, h, near, mark[..], stack, done, Index(w, x, y));
    pushed := Push(mark, stack, near, w, h, x, y);
    count := pushes + |pushed| - |stack|;
  }

  lemma BorderPlace(w: int, h: int, near: seq<bool>, x: int, y: int)
    requires InPicture(w, h, x, y) && |near| == w * h && (x == 0 || x == w - 1 || y == 0 || y == h - 1)
    ensures near[Place(w, h, x, y)] ==> Reached(w, h, near, Place(w, h, x, y))
  {
    IndexInRange(w, h, x, y);
    if near[Place(w, h, x, y)] { BorderIsReached(w, h, near, Place(w, h, x, y)); }
  }

  ghost predicate Covered(w: int, h: int, near: seq<bool>, mark: seq<bool>, x: int, y: int)
    requires |near| == |mark| == w * h && InPicture(w, h, x, y)
  {
    near[Place(w, h, x, y)] ==> mark[Place(w, h, x, y)]
  }

  ghost predicate RowCovered(w: int, h: int, near: seq<bool>, mark: seq<bool>, n: int, y: int)
    requires |near| == |mark| == w * h && n <= w && 0 <= y < h
  {
    forall k :: 0 <= k < n ==> Covered(w, h, near, mark, k, y)
  }

  ghost predicate ColumnCovered(w: int, h: int, near: seq<bool>, mark: seq<bool>, n: int, x: int)
    requires |near| == |mark| == w * h && n <= h && 0 <= x < w
  {
    forall k :: 0 <= k < n ==> Covered(w, h, near, mark, x, k)
  }

  /** The first n pixels of the top and bottom rows. */
  ghost predicate RowsCovered(w: int, h: int, near: seq<bool>, mark: seq<bool>, n: int)
    requires |near| == |mark| == w * h && n <= w && h > 0
  {
    RowCovered(w, h, near, mark, n, 0) && RowCovered(w, h, near, mark, n, h - 1)
  }

  /** The first n pixels of the left and right columns. */
  ghost predicate ColumnsCovered(w: int, h: int, near: seq<bool>, mark: seq<bool>, n: int)
    requires |near| == |mark| == w * h && n <= h && w > 0
  {
    ColumnCovered(w, h, near, mark, n, 0) && ColumnCovered(w, h, near, mark, n, w - 1)
  }

  lemma BorderCovered(w: int, h: int, near: seq<bool>, mark: seq<bool>)
    requires w > 0 && h > 0 && |near| == |mark| == w * h
    requires RowsCovered(w, h, near, mark, w) && ColumnsCovered(w, h, near, mark, h)
    ensures BorderMarked(w, h, near, mark)
  {
    forall i | 0 <= i < |mark| && near[i] && OnBorder(w, h, i) ensures mark[i] {
      Coordinates(w, h, i);
      assert Place(w, h, i % w, i / w) == i;
      assert Covered(w, h, near, mark, i % w, 0) && Covered(w, h, near, mark, i % w, h - 1);
      assert Covered(w, h, near, mark, 0, i / w) && Covered(w, h, near, mark, w - 1, i / w);
    }
  }

  lemma RowStays(w: int, h: int, near: seq<bool>, before: seq<bool>, after: seq<bool>, n: int, y: int)
    requires n <= w && 0 <= y < h && |near| == |before| == w * h && Grows(before, after)
    requires RowCovered(w, h, near, before, n, y)
    ensures RowCovered(w, h, near, after, n, y)
  {
    forall k | 0 <= k < n ensures Covered(w, h, near, after, k, y) { assert Covered(w, h, near, before, k, y); }
  }

  lemma ColumnStays(w: int, h: int, near: seq<bool>, before: seq<bool>, after: seq<bool>, n: int, x: int)
    requires n <= h && 0 <= x < w && |near| == |before| == w * h && Grows(before, after)
    requires ColumnCovered(w, h, near, before, n, x)
    ensures ColumnCovered(w, h, near, after, n, x)
  {
    forall k | 0 <= k < n ensures Covered(w, h, near, after, x, k) { assert Covered(w, h, near, before, x, k); }
  }

  /** Two border pixels offered, one after the other. */
  method OfferPair(mark: array<bool>, stack: seq<int>, near: seq<bool>, w: int, h: int,
                   x: int, y: int, x': int, y': int, ghost pushes: nat)
    returns (pushed: seq<int>, ghost count: nat)
    requires mark.Length == |near| == w * h && InPicture(w, h, x, y) && InPicture(w, h, x', y')
    requires (x == 0 || y == 0) && (x' == w - 1 || y' == h - 1)
    requires Filling(w, h, near, mark[..], stack, {}) && pushes == |stack|
    modifies mark
    ensures Filling(w, h, near, mark[..], pushed, {}) && count == |pushed|
    ensures Grows(old(mark[..]), mark[..])
    ensures Covered(w, h, near, mark[..], x, y) && Covered(w, h, near, mark[..], x', y')
  {
    BorderPlace(w, h, near, x, y);
    BorderPlace(w, h, near, x', y');
    pushed, count := Offer(mark, stack, near, w, h, x, y, {}, pushes);
    pushed, count := Offer(mark, pushed, near, w, h, x', y', {}, count);
  }

  method OfferRows(mark: array<bool>, near: seq<bool>, w: int, h: int) returns (stack: seq<int>, ghost pushes: nat)
    requires w > 0 && h > 0 && mark.Length == |near| == w * h
    requires forall i :: 0 <= i < mark.Length ==> !mark[i]
    modifies mark
    ensures Filling(w, h, near, mark[..], stack, {}) && pushes == |stack|
    ensures RowsCovered(w, h, near, mark[..], w)
  {
    stack, pushes := [], 0;
    for x := 0 to w
      invariant Filling(w, h, near, mark[..], stack, {}) && pushes == |stack|
      invariant RowsCovered(w, h, near, mark[..], x)
    {
      ghost var before := mark[..];
      stack, pushes := OfferPair(mark, stack, near, w, h, x, 0, x, h - 1, pushes);
      RowStays(w, h, near, before, mark[..], x, 0);
      RowStays(w, h, near, before, mark[..], x, h - 1);
    }
  }

  method OfferColumns(mark: array<bool>, rows: seq<int>, near: seq<bool>, w: int, h: int, ghost count: nat)
    returns (stack: seq<int>, ghost pushes: nat)
    requires w > 0 && h > 0 && mark.Length == |near| == w * h
    requires Filling(w, h, near, mark[..], rows, {}) && count == |rows| && RowsCovered(w, h, near, mark[..], w)
    modifies mark
    ensures Filling(w, h, near, mark[..], stack, {}) && pushes == |stack|
    ensures RowsCovered(w, h, near, mark[..], w) && ColumnsCovered(w, h, near, mark[..], h)
  {
    stack, pushes := rows, count;
    for y := 0 to h
      invariant Filling(w, h, near, mark[..], stack, {}) && pushes == |stack|
      invariant RowsCovered(w, h, near, mark[..], w) && ColumnsCovered(w, h, near, mark[..], y)
    {
      ghost var before := mark[..];
      stack, pushes := OfferPair(mark, stack, near, w, h, 0, y, w - 1, y, pushes);
      RowStays(w, h, near, before, mark[..], w, 0);
      RowStays(w, h, near, before, mark[..], w, h - 1);
      ColumnStays(w, h, near, before, mark[..], y, 0);
      ColumnStays(w, h, near, before, mark[..], y, w - 1);
    }
  }

  /** Pixel (x, y), if the picture has it, is marked when near. */
  ghost predicate CoveredIfThere(w: int, h: int, near: seq<bool>, mark: seq<bool>, x: int, y: int)
    requires |near| == |mark| == w * h
  {
    InPicture(w, h, x, y) ==> Covered(w, h, near, mark, x, y)
  }

  ghost predicate ReachedIfNear(w: int, h: int, near: seq<bool>, x: int, y: int)
    requires |near| == w * h
  {
    InPicture(w, h, x, y) && near[Place(w, h, x, y)] ==> Reached(w, h, near, Place(w, h, x, y))
  }

  /** The pixels left and right of (x, y), where the picture has them. */
  method OfferSides(mark: array<bool>, stack: seq<int>, near: seq<bool>, w: int, h: int, x: int, y: int,
                    ghost done: set<int>, ghost pushes: nat)
    returns (pushed: seq<int>, ghost count: nat)
    requires InPicture(w, h, x, y) && mark.Length == |near| == w * h
    requires Filling(w, h, near, mark[..], stack, done) && pushes == |done| + |stack|
    requires ReachedIfNear(w, h, near, x - 1, y) && ReachedIfNear(w, h, near, x + 1, y)
    modifies mark
    ensures Filling(w, h, near, mark[..], pushed, done) && count == |done| + |pushed|
    ensures Grows(old(mark[..]), mark[..])
    ensures CoveredIfThere(w, h, near, mark[..], x - 1, y) && CoveredIfThere(w, h, near, mark[..], x + 1, y)
  {
    pushed, count := stack, pushes;
    if x > 0 { pushed, count := Offer(mark, pushed, near, w, h, x - 1, y, done, count); }
    if x < w - 1 { pushed, count := Offer(mark, pushed, near, w, h, x + 1, y, done, count); }
  }

  /** The pixels above and below (x, y), where the picture has them. */
  method OfferUpDown(mark: array<bool>, stack: seq<int>, near: seq<bool>, w: int, h: int, x: int, y: int,
                     ghost done: set<int>, ghost pushes: nat)
    returns (pushed: seq<int>, ghost count: nat)
    requires InPicture(w, h, x, y) && mark.Length == |near| == w * h
    requires Filling(w, h, near, mark[..], stack, done) && pushes == |done| + |stack|
    requires ReachedIfNear(w, h, near, x, y - 1) && ReachedIfNear(w, h, near, x, y + 1)
    modifies mark
    ensures Filling(w, h, near, mark[..], pushed, done) && count == |done| + |pushed|
    ensures Grows(old(mark[..]), mark[..])
    ensures CoveredIfThere(w, h, near, mark[..], x, y - 1) && CoveredIfThere(w, h, near, mark[..], x, y + 1)
  {
    pushed, count := stack, pushes;
    if y > 0 { pushed, count := Offer(mark, pushed, near, w, h, x, y - 1, done, count); }
    if y < h - 1 { pushed, count := Offer(mark, pushed, near, w, h, x, y + 1, done, count); }
  }

  lemma FourCoveredIsSpread(w: int, h: int, near: seq<bool>, mark: seq<bool>, x: int, y: int)
    requires InPicture(w, h, x, y) && |near| == |mark| == w * h
    requires CoveredIfThere(w, h, near, mark, x - 1, y) && CoveredIfThere(w, h, near, mark, x + 1, y)
    requires CoveredIfThere(w, h, near, mark, x, y - 1) && CoveredIfThere(w, h, near, mark, x, y + 1)
    ensures Spread(w, near, mark, Place(w, h, x, y))
  {
    forall j | 0 <= j < |near| && near[j] && Adjacent(w, Place(w, h, x, y), j) ensures mark[j] {
      NeighboursAre(w, h, x, y, j);
    }
  }

  /** The four neighbours of a pixel just taken off the stack are offered. */
  method OfferNeighbours(mark: array<bool>, stack: seq<int>, near: seq<bool>, w: int, h: int, i: int,
                         ghost done: set<int>, ghost pushes: nat)
    returns (pushed: seq<int>, ghost count: nat)
    requires w > 0 && mark.Length == |near| == w * h && i in done
    requires Filling(w, h, near, mark[..], stack, done) && pushes == |done| + |stack|
    modifies mark
    ensures Filling(w, h, near, mark[..], pushed, done) && count == |done| + |pushed|
    ensures Grows(old(mark[..]), mark[..]) && Spread(w, near, mark[..], i)
  {
    var x, y := i % w, i / w;
    Coordinates(w, h, i);
    NeighboursReached(w, h, near, x, y);
    pushed, count := OfferSides(mark, stack, near, w, h, x, y, done, pushes);
    ghost var sides := mark[..];
    pushed, count := OfferUpDown(mark, pushed, near, w, h, x, y, done, count);
    StillCovered(w, h, near, sides, mark[..], x - 1, y);
    StillCovered(w, h, near, sides, mark[..], x + 1, y);
    FourCoveredIsSpread(w, h, near, mark[..], x, y);
  }

  lemma StillCovered(w: int, h: int, near: seq<bool>, before: seq<bool>, after: seq<bool>, x: int, y: int)
    requires |near| == |before| == w * h && Grows(before, after) && CoveredIfThere(w, h, near, before, x, y)
    ensures CoveredIfThere(w, h, near, after, x, y)
  {
  }

  lemma NeighboursReached(w: int, h: int, near: seq<bool>, x: int, y: int)
    requires InPicture(w, h, x, y) && |near| == w * h && Reached(w, h, near, Place(w, h, x, y))
    ensures ReachedIfNear(w, h, near, x - 1, y) && ReachedIfNear(w, h, near, x + 1, y)
    ensures ReachedIfNear(w, h, near, x, y - 1) && ReachedIfNear(w, h, near, x, y + 1)
  {
    var i := Place(w, h, x, y);
    forall j | 0 <= j < |near| && near[j] && Adjacent(w, i, j) ensures Reached(w, h, near, j) {
      NeighbourIsReached(w, h, near, i, j);
    }
    if x > 0 { NeighboursAre(w, h, x, y, Place(w, h, x - 1, y)); }
    if x < w - 1 { NeighboursAre(w, h, x, y, Place(w, h, x + 1, y)); }
    if y > 0 { NeighboursAre(w, h, x, y, Place(w, h, x, y - 1)); }
    if y < h - 1 { NeighboursAre(w, h, x, y, Place(w, h, x, y + 1)); }
  }

  lemma {:induction false} AtMost(s: set<int>, n: nat)
    requires forall i :: i in s ==> 0 <= i < n
    ensures |s| <= n
    decreases n
  {
    if n > 0 {
      AtMost(s - {n - 1}, n - 1);
      assert |s| <= |s - {n - 1}| + 1;
    } else {
      assert forall i :: i !in s;
      assert s == {};
    }
  }

  lemma TakeOff(w: int, h: int, near: seq<bool>, mark: seq<bool>, stack: seq<int>, done: set<int>)
    requires w > 0 && |near| == w * h && |mark| == |near| && stack != [] && Filling(w, h, near, mark, stack, done)
    ensures var i := stack[|stack| - 1];
      && 0 <= i < |mark| && i !in done && Filling(w, h, near, mark, stack[..|stack| - 1], done + {i})
      && |done + {i}| == |done| + 1 <= w * h
  {
    var i, rest := stack[|stack| - 1], stack[..|stack| - 1];
    assert i in stack && stack == rest + [i];
    assert i !in rest;
    AtMost(done + {i}, w * h);
  }

  /**
   The fill: exactly the near pixels a walk from the border reaches are marked,
   and each of them was pushed exactly once. Every round takes one more pixel off
   the stack for good, so the loop ends.
   */
  method Fill(w: int, h: int, near: seq<bool>) returns (mark: array<bool>, ghost pushes: nat)
    requires w > 0 && h > 0 && |near| == w * h
    ensures fresh(mark) && mark.Length == w * h
    ensures forall i :: 0 <= i < mark.Length ==> (mark[i] <==> Reached(w, h, near, i))
    ensures pushes == |set i | 0 <= i < mark.Length && mark[i]|
  {
    mark := new bool[|near|](_ => false);
    var stack;
    stack, pushes := OfferRows(mark, near, w, h);
    stack, pushes := OfferColumns(mark, stack, near, w, h, pushes);
    BorderCovered(w, h, near, mark[..]);
    ghost var done: set<int> := {};
    while |stack| > 0
      invariant Filling(w, h, near, mark[..], stack, done) && pushes == |done| + |stack|
      invariant BorderMarked(w, h, near, mark[..]) && AllSpread(w, near, mark[..], done)
      invariant |done| <= w * h
      decreases w * h - |done|
    {
      var i := stack[|stack| - 1];
      TakeOff(w, h, near, mark[..], stack, done);
      stack := stack[..|stack| - 1];
      ghost var before := done;
      done := done + {i};
      stack, pushes := OfferNeighbours(mark, stack, near, w, h, i, done, pushes);
      assert AllSpread(w, near, mark[..], before);
    }
    forall i | 0 <= i < mark.Length && Reached(w, h, near, i) ensures mark[i] {
      var p :| Walk(w, h, near, p) && p[|p| - 1] == i;
      ClosedHoldsAll(w, h, near, mark[..], p);
    }
    assert done == set i | 0 <= i < mark.Length && mark[i];
  }
}
