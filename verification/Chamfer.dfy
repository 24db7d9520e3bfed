/**
 keyline's distance transform: two raster passes with weights 3 and 4 give every
 pixel its exact 3-4 distance from the nearest opaque one, and so the border is
 exactly the pixels within 3r of the drawing.
 */
module Chamfer {
  import opened Raster

  newtype int32 = x: int | -0x8000_0000 <= x < 0x8000_0000

  const FAR: int := 0x1000_0000

  function Abs(x: int): int { if x < 0 then -x else x }

  /** The cost of the cheapest walk of straight steps at 3 and diagonal steps at 4. */
  function Dist(dx: int, dy: int): int {
    var a, b := Abs(dx), Abs(dy);
    var lo, hi := if a < b then a else b, if a < b then b else a;
    4 * lo + 3 * (hi - lo)
  }

  function Between(w: int, i: int, j: int): int
    requires w > 0
  {
    Dist(i % w - j % w, i / w - j / w)
  }

  /** A step changes the distance by no more than its weight. */
  lemma StepBounds(dx: int, dy: int, sx: int, sy: int)
    requires -1 <= sx <= 1 && -1 <= sy <= 1
    ensures Dist(dx + sx, dy + sy) <= Dist(dx, dy) + Weight(sx, sy)
  {
  }

  function Weight(sx: int, sy: int): int {
    if sx == 0 && sy == 0 then 0 else if sx == 0 || sy == 0 then 3 else 4
  }

  // ------------------------------------------------------------ a pass, on values

  /** One direction for both passes: the second is the first turned around. */
  function Turn(forth: bool, v: int): int { if forth then v else -v }

  /** The values as a pass reads them: FAR outside the picture. */
  type Field = (int, int) -> int

  /** No neighbour the pass looks at offers (x, y) a smaller value than it has. */
  ghost predicate ClosedAt(f: Field, forth: bool, x: int, y: int) {
    var s := Turn(forth, 1);
    f(x, y) <= f(x - s, y) + 3 && f(x, y) <= f(x, y - s) + 3 && f(x, y) <= f(x - s, y - s) + 4 && f(x, y) <= f(x + s, y - s) + 4
  }

  ghost predicate Closed(w: int, h: int, f: Field, forth: bool) {
    forall x, y :: InPicture(w, h, x, y) ==> ClosedAt(f, forth, x, y)
  }

  /** The displacements a pass reaches by its own steps alone. */
  ghost predicate InCone(forth: bool, dx: int, dy: int) {
    Turn(forth, dy) >= 0 && Turn(forth, dx) >= -Turn(forth, dy)
  }

  /** One step of the pass out of a displacement in its cone: what is left is in it, nearer, and exactly the step's weight less. */
  lemma ConeStep(forth: bool, dx: int, dy: int) returns (sx: int, sy: int)
    requires InCone(forth, dx, dy) && (dx != 0 || dy != 0)
    ensures var s := Turn(forth, 1); (sx == s && sy == s) || (sx == s && sy == 0) || (sx == -s && sy == s) || (sx == 0 && sy == s)
    ensures InCone(forth, dx - sx, dy - sy) && Dist(dx, dy) == Dist(dx - sx, dy - sy) + Weight(sx, sy)
    ensures Abs(dx - sx) <= Abs(dx) && Abs(dy - sy) <= Abs(dy) && Abs(dx - sx) + Abs(dy - sy) < Abs(dx) + Abs(dy)
    ensures (0 <= dx - sx <= dx || dx <= dx - sx <= 0) && (0 <= dy - sy <= dy || dy <= dy - sy <= 0)
  {
    var s := Turn(forth, 1);
    if Turn(forth, dx) > 0 && dy != 0 {
      sx, sy := s, s;
    } else if Turn(forth, dx) > 0 {
      sx, sy := s, 0;
    } else if dx != 0 {
      sx, sy := -s, s;
    } else {
      sx, sy := 0, s;
    }
  }

  /** Inside its cone, a closed pass carries values at exactly the distance. */
  lemma {:induction false} ConeReach(w: int, h: int, f: Field, forth: bool, px: int, py: int, x: int, y: int)
    requires InPicture(w, h, px, py) && InPicture(w, h, x, y) && Closed(w, h, f, forth)
    requires InCone(forth, x - px, y - py)
    ensures f(x, y) <= f(px, py) + Dist(x - px, y - py)
    decreases Abs(x - px) + Abs(y - py)
  {
    if x != px || y != py {
      var sx, sy := ConeStep(forth, x - px, y - py);
      assert ClosedAt(f, forth, x, y);
      ConeReach(w, h, f, forth, px, py, x - sx, y - sy);
    }
  }

  /**
   Every displacement is steps of the first pass, then steps of the second, at no
   extra cost and without leaving the picture.
   */
  lemma TwoLegs(w: int, h: int, px: int, py: int, x: int, y: int) returns (mx: int, my: int)
    requires InPicture(w, h, px, py) && InPicture(w, h, x, y)
    ensures InPicture(w, h, mx, my) && InCone(true, mx - px, my - py) && InCone(false, x - mx, y - my)
    ensures Dist(mx - px, my - py) + Dist(x - mx, y - my) == Dist(x - px, y - py)
  {
    if InCone(true, x - px, y - py) {
      mx, my := x, y;
    } else if InCone(false, x - px, y - py) {
      mx, my := px, py;
    } else if y > py {
      mx, my := px - (y - py), y;
    } else {
      mx, my := x - (py - y), py;
    }
  }

  /** After both passes no pixel of the first is closer than the value says. */
  lemma TwoPassesReach(w: int, h: int, first: Field, second: Field, px: int, py: int, x: int, y: int)
    requires InPicture(w, h, px, py) && InPicture(w, h, x, y)
    requires Closed(w, h, first, true) && Closed(w, h, second, false)
    requires forall i, j :: InPicture(w, h, i, j) ==> second(i, j) <= first(i, j)
    ensures second(x, y) <= first(px, py) + Dist(x - px, y - py)
  {
    var mx, my := TwoLegs(w, h, px, py, x, y);
    ConeReach(w, h, first, true, px, py, mx, my);
    ConeReach(w, h, second, false, mx, my, x, y);
  }

  // ------------------------------------------------------------ never too small

  /** Every value is FAR or at least the distance from some opaque pixel. */
  ghost predicate Earned(w: int, h: int, solid: (int, int) -> bool, v: int, x: int, y: int) {
    v == FAR || exists px, py :: InPicture(w, h, px, py) && solid(px, py) && Dist(x - px, y - py) <= v
  }

  /** A smaller value taken from a neighbour is earned too. */
  lemma EarnedStep(w: int, h: int, solid: (int, int) -> bool, v: int, x: int, y: int, sx: int, sy: int)
    requires -1 <= sx <= 1 && -1 <= sy <= 1 && Earned(w, h, solid, v, x + sx, y + sy)
    requires v + Weight(sx, sy) < FAR
    ensures Earned(w, h, solid, v + Weight(sx, sy), x, y)
  {
    var px, py :| InPicture(w, h, px, py) && solid(px, py) && Dist(x + sx - px, y + sy - py) <= v;
    StepBounds(x + sx - px, y + sy - py, -sx, -sy);
    assert x + sx - px + -sx == x - px && y + sy - py + -sy == y - py && Weight(-sx, -sy) == Weight(sx, sy);
    assert InPicture(w, h, px, py) && solid(px, py) && Dist(x - px, y - py) <= v + Weight(sx, sy);
  }

  // ------------------------------------------------------------ one relaxation, on values

  /** Values between 0 and FAR, each earned. */
  ghost predicate Good(w: int, h: int, solid: (int, int) -> bool, f: Field) {
    forall x, y :: 0 <= f(x, y) <= FAR && Earned(w, h, solid, f(x, y), x, y)
  }

  ghost predicate Offers(f: Field, forth: bool, x: int, y: int, v: int) {
    var s := Turn(forth, 1);
    v == f(x, y) || v == f(x - s, y) + 3 || v == f(x, y - s) + 3 || v == f(x - s, y - s) + 4 || v == f(x + s, y - s) + 4
  }

  /** after is before with (x, y) lowered to the smallest of what it had and what it was offered. */
  ghost predicate Relaxed(before: Field, after: Field, forth: bool, x: int, y: int) {
    && (forall a, b :: a != x || b != y ==> after(a, b) == before(a, b))
    && Offers(before, forth, x, y, after(x, y)) && after(x, y) <= before(x, y) && ClosedAt(after, forth, x, y)
  }

  lemma RelaxKeepsGood(w: int, h: int, solid: (int, int) -> bool, before: Field, after: Field, forth: bool, x: int, y: int)
    requires Good(w, h, solid, before) && Relaxed(before, after, forth, x, y)
    ensures Good(w, h, solid, after)
  {
    var s := Turn(forth, 1);
    var v := after(x, y);
    forall sx, sy | -1 <= sx <= 1 && -1 <= sy <= 1 && v == before(x + sx, y + sy) + Weight(sx, sy) && v < FAR
      ensures Earned(w, h, solid, v, x, y)
    {
      EarnedStep(w, h, solid, before(x + sx, y + sy), x, y, sx, sy);
    }
    OfferedFrom(before, forth, x, y, v);
    forall a, b ensures 0 <= after(a, b) <= FAR && Earned(w, h, solid, after(a, b), a, b) {
      if a != x || b != y { assert after(a, b) == before(a, b); }
    }
  }

  lemma OfferedFrom(f: Field, forth: bool, x: int, y: int, v: int)
    requires Offers(f, forth, x, y, v)
    ensures exists sx, sy :: -1 <= sx <= 1 && -1 <= sy <= 1 && v == f(x + sx, y + sy) + Weight(sx, sy)
  {
    var s := Turn(forth, 1);
    if v == f(x, y) { assert v == f(x + 0, y + 0) + Weight(0, 0); }
    else if v == f(x - s, y) + 3 { assert v == f(x + -s, y + 0) + Weight(-s, 0); }
    else if v == f(x, y - s) + 3 { assert v == f(x + 0, y + -s) + Weight(0, -s); }
    else if v == f(x - s, y - s) + 4 { assert v == f(x + -s, y + -s) + Weight(-s, -s); }
    else { assert v == f(x + s, y + -s) + Weight(s, -s); }
  }

  /** (a, b) comes before (x, y) in the order the pass takes the pixels. */
  ghost predicate Earlier(forth: bool, a: int, b: int, x: int, y: int) {
    if forth then b < y || (b == y && a < x) else b > y || (b == y && a > x)
  }

  ghost predicate ClosedBefore(w: int, h: int, f: Field, forth: bool, x: int, y: int) {
    forall a, b :: InPicture(w, h, a, b) && Earlier(forth, a, b, x, y) ==> ClosedAt(f, forth, a, b)
  }

  /** A relaxation leaves every earlier pixel closed: none of them reads this one. */
  lemma RelaxKeepsClosed(w: int, h: int, before: Field, after: Field, forth: bool, x: int, y: int)
    requires ClosedBefore(w, h, before, forth, x, y) && Relaxed(before, after, forth, x, y)
    ensures ClosedBefore(w, h, after, forth, x + Turn(forth, 1), y)
  {
    forall a, b | InPicture(w, h, a, b) && Earlier(forth, a, b, x + Turn(forth, 1), y) ensures ClosedAt(after, forth, a, b) {
      if a != x || b != y { assert ClosedAt(before, forth, a, b); }
    }
  }

  // ------------------------------------------------------------ the array

  ghost function FieldOf(w: int, h: int, d: seq<int32>): Field
    requires |d| == w * h
  {
    (x, y) => if InPicture(w, h, x, y) then d[Place(w, h, x, y)] as int else FAR
  }

  ghost predicate InRange(d: seq<int32>) { forall i :: 0 <= i < |d| ==> 0 <= d[i] <= FAR as int32 }

  method At(d: array<int32>, w: int, h: int, x: int, y: int) returns (v: int32)
    requires d.Length == w * h && InRange(d[..])
    ensures v as int == FieldOf(w, h, d[..])(x, y) && 0 <= v <= FAR as int32
  {
    if x < 0 || y < 0 || x >= w || y >= h { return FAR as int32; }
    v := d[Place(w, h, x, y)];
  }

  /** The smallest of the candidates and what is there. */
  method Relax(d: array<int32>, i: int, cands: seq<int32>)
    requires 0 <= i < d.Length
    modifies d
    ensures forall k :: 0 <= k < |cands| ==> d[i] <= cands[k]
    ensures d[i] <= old(d[i]) && (d[i] == old(d[i]) || d[i] in cands)
    ensures d[..] == old(d[..])[i := d[i]]
  {
    for k := 0 to |cands|
      invariant forall j :: 0 <= j < k ==> d[i] <= cands[j]
      invariant d[i] <= old(d[i]) && (d[i] == old(d[i]) || d[i] in cands)
      invariant d[..] == old(d[..])[i := d[i]]
    {
      if cands[k] < d[i] { d[i] := cands[k]; }
    }
  }

  lemma OnlyThere(w: int, h: int, before: seq<int32>, after: seq<int32>, x: int, y: int)
    requires |before| == |after| == w * h && InPicture(w, h, x, y)
    requires after == before[Place(w, h, x, y) := after[Place(w, h, x, y)]]
    ensures forall a, b :: a != x || b != y ==> FieldOf(w, h, after)(a, b) == FieldOf(w, h, before)(a, b)
  {
  }

  /** The least of what a pixel holds and what its four neighbours of the pass offer it. */
  ghost predicate Least(v: int, was: int, ahead: int, above: int, near: int, far: int) {
    && v <= was && v <= ahead + 3 && v <= above + 3 && v <= near + 4 && v <= far + 4
    && (v == was || v == ahead + 3 || v == above + 3 || v == near + 4 || v == far + 4)
  }

  lemma LeastIsRelaxed(w: int, h: int, before: seq<int32>, after: seq<int32>, forth: bool, x: int, y: int,
                       ahead: int, above: int, near: int, far: int)
    requires |before| == |after| == w * h && InPicture(w, h, x, y) && InRange(before)
    requires 0 <= ahead && 0 <= above && 0 <= near && 0 <= far
    requires var f, s := FieldOf(w, h, before), Turn(forth, 1);
      f(x - s, y) == ahead && f(x, y - s) == above && f(x - s, y - s) == near && f(x + s, y - s) == far
    requires after == before[Place(w, h, x, y) := after[Place(w, h, x, y)]]
    requires Least(after[Place(w, h, x, y)] as int, before[Place(w, h, x, y)] as int, ahead, above, near, far)
    ensures InRange(after) && Relaxed(FieldOf(w, h, before), FieldOf(w, h, after), forth, x, y)
  {
    OnlyThere(w, h, before, after, x, y);
  }

  method RelaxForth(d: array<int32>, w: int, h: int, x: int, y: int)
    requires d.Length == w * h && InPicture(w, h, x, y) && InRange(d[..])
    modifies d
    ensures InRange(d[..]) && Relaxed(FieldOf(w, h, old(d[..])), FieldOf(w, h, d[..]), true, x, y)
  {
    var left := At(d, w, h, x - 1, y);
    var up := At(d, w, h, x, y - 1);
    var upLeft := At(d, w, h, x - 1, y - 1);
    var upRight := At(d, w, h, x + 1, y - 1);
    ghost var before := d[..];
    var cands := [left + 3, up + 3, upLeft + 4, upRight + 4];
    Relax(d, Place(w, h, x, y), cands);
    assert cands[0] == left + 3 && cands[1] == up + 3 && cands[2] == upLeft + 4 && cands[3] == upRight + 4;
    LeastIsRelaxed(w, h, before, d[..], true, x, y, left as int, up as int, upLeft as int, upRight as int);
  }

  method RelaxBack(d: array<int32>, w: int, h: int, x: int, y: int)
    requires d.Length == w * h && InPicture(w, h, x, y) && InRange(d[..])
    modifies d
    ensures InRange(d[..]) && Relaxed(FieldOf(w, h, old(d[..])), FieldOf(w, h, d[..]), false, x, y)
  {
    var right := At(d, w, h, x + 1, y);
    var down := At(d, w, h, x, y + 1);
    var downRight := At(d, w, h, x + 1, y + 1);
    var downLeft := At(d, w, h, x - 1, y + 1);
    ghost var before := d[..];
    var cands := [right + 3, down + 3, downRight + 4, downLeft + 4];
    Relax(d, Place(w, h, x, y), cands);
    assert cands[0] == right + 3 && cands[1] == down + 3 && cands[2] == downRight + 4 && cands[3] == downLeft + 4;
    LeastIsRelaxed(w, h, before, d[..], false, x, y, right as int, down as int, downRight as int, downLeft as int);
  }

  ghost predicate Lowered(before: Field, after: Field) { forall x, y :: after(x, y) <= before(x, y) }

  lemma RelaxedLowers(start: Field, before: Field, after: Field, forth: bool, x: int, y: int)
    requires Lowered(start, before) && Relaxed(before, after, forth, x, y)
    ensures Lowered(start, after)
  {
    forall a, b ensures after(a, b) <= start(a, b) {
      if a != x || b != y { assert after(a, b) == before(a, b); }
    }
  }

  /** What a pass keeps, having taken every pixel before (x, y). */
  ghost predicate Passing(w: int, h: int, solid: (int, int) -> bool, start: Field, f: Field, forth: bool, x: int, y: int) {
    Good(w, h, solid, f) && Lowered(start, f) && ClosedBefore(w, h, f, forth, x, y)
  }

  lemma PassingStep(w: int, h: int, solid: (int, int) -> bool, start: Field, before: Field, after: Field,
                    forth: bool, x: int, y: int)
    requires Passing(w, h, solid, start, before, forth, x, y) && Relaxed(before, after, forth, x, y)
    ensures Passing(w, h, solid, start, after, forth, x + Turn(forth, 1), y)
  {
    RelaxKeepsGood(w, h, solid, before, after, forth, x, y);
    RelaxKeepsClosed(w, h, before, after, forth, x, y);
    RelaxedLowers(start, before, after, forth, x, y);
  }

  /** The end of one row is the start of the next. */
  lemma NextRow(w: int, h: int, solid: (int, int) -> bool, start: Field, f: Field, forth: bool, y: int)
    requires Passing(w, h, solid, start, f, forth, if forth then w else -1, y)
    ensures Passing(w, h, solid, start, f, forth, if forth then 0 else w - 1, y + Turn(forth, 1))
  {
    forall a, b | InPicture(w, h, a, b) && Earlier(forth, a, b, if forth then 0 else w - 1, y + Turn(forth, 1))
      ensures ClosedAt(f, forth, a, b)
    {
      assert Earlier(forth, a, b, if forth then w else -1, y);
    }
  }

  method PassForth(d: array<int32>, w: int, h: int, ghost solid: (int, int) -> bool)
    requires w >= 0 && h >= 0 && d.Length == w * h && InRange(d[..]) && Good(w, h, solid, FieldOf(w, h, d[..]))
    modifies d
    ensures InRange(d[..]) && Good(w, h, solid, FieldOf(w, h, d[..]))
    ensures Lowered(FieldOf(w, h, old(d[..])), FieldOf(w, h, d[..]))
    ensures Closed(w, h, FieldOf(w, h, d[..]), true)
  {
    ghost var start := FieldOf(w, h, d[..]);
    for y := 0 to h
      invariant InRange(d[..]) && Passing(w, h, solid, start, FieldOf(w, h, d[..]), true, 0, y)
    {
      for x := 0 to w
        invariant InRange(d[..]) && Passing(w, h, solid, start, FieldOf(w, h, d[..]), true, x, y)
      {
        ghost var before := FieldOf(w, h, d[..]);
        RelaxForth(d, w, h, x, y);
        PassingStep(w, h, solid, start, before, FieldOf(w, h, d[..]), true, x, y);
      }
      NextRow(w, h, solid, start, FieldOf(w, h, d[..]), true, y);
    }
  }

  method PassBack(d: array<int32>, w: int, h: int, ghost solid: (int, int) -> bool)
    requires w >= 0 && h >= 0 && d.Length == w * h && InRange(d[..]) && Good(w, h, solid, FieldOf(w, h, d[..]))
    modifies d
    ensures InRange(d[..]) && Good(w, h, solid, FieldOf(w, h, d[..]))
    ensures Lowered(FieldOf(w, h, old(d[..])), FieldOf(w, h, d[..]))
    ensures Closed(w, h, FieldOf(w, h, d[..]), false)
  {
    ghost var start := FieldOf(w, h, d[..]);
    for y := h downto 0
      invariant InRange(d[..]) && Passing(w, h, solid, start, FieldOf(w, h, d[..]), false, w - 1, y - 1)
    {
      for x := w downto 0
        invariant InRange(d[..]) && Passing(w, h, solid, start, FieldOf(w, h, d[..]), false, x - 1, y)
      {
        ghost var before := FieldOf(w, h, d[..]);
        RelaxBack(d, w, h, x, y);
        PassingStep(w, h, solid, start, before, FieldOf(w, h, d[..]), false, x, y);
      }
      NextRow(w, h, solid, start, FieldOf(w, h, d[..]), false, y);
    }
  }

  /** v is the smallest of FAR and the distances from the solid pixels to (x, y). */
  ghost predicate IsDistance(w: int, h: int, solid: (int, int) -> bool, v: int, x: int, y: int) {
    && v <= FAR && Earned(w, h, solid, v, x, y)
    && forall px, py :: InPicture(w, h, px, py) && solid(px, py) ==> v <= Dist(x - px, y - py)
  }

  lemma BothPassesAreExact(w: int, h: int, solid: (int, int) -> bool, start: Field, first: Field, second: Field)
    requires Good(w, h, solid, second) && Lowered(start, first) && Lowered(first, second)
    requires Closed(w, h, first, true) && Closed(w, h, second, false)
    requires forall x, y :: InPicture(w, h, x, y) && solid(x, y) ==> start(x, y) == 0
    ensures forall x, y :: InPicture(w, h, x, y) ==> IsDistance(w, h, solid, second(x, y), x, y)
  {
    forall x, y, px, py | InPicture(w, h, x, y) && InPicture(w, h, px, py) && solid(px, py)
      ensures second(x, y) <= Dist(x - px, y - py)
    {
      TwoPassesReach(w, h, first, second, px, py, x, y);
      assert first(px, py) <= start(px, py);
    }
    forall x, y | InPicture(w, h, x, y) ensures IsDistance(w, h, solid, second(x, y), x, y) {
      assert 0 <= second(x, y) <= FAR && Earned(w, h, solid, second(x, y), x, y);
    }
  }

  /** A solid pixel of the drawing lies within 3r. */
  ghost predicate WithinBorder(w: int, h: int, solid: (int, int) -> bool, r: int, x: int, y: int) {
    exists px, py :: InPicture(w, h, px, py) && solid(px, py) && Dist(x - px, y - py) <= 3 * r
  }

  ghost function SolidAt(w: int, h: int, alpha: seq<bv8>): (int, int) -> bool
    requires |alpha| == w * h
  {
    (x, y) => InPicture(w, h, x, y) && alpha[Place(w, h, x, y)] > 0
  }

  method Seed(w: int, h: int, alpha: seq<bv8>) returns (d: array<int32>)
    requires w >= 0 && h >= 0 && |alpha| == w * h
    ensures fresh(d) && d.Length == w * h && InRange(d[..])
    ensures forall i :: 0 <= i < d.Length ==> d[i] == if alpha[i] > 0 then 0 else FAR as int32
  {
    d := new int32[|alpha|];
    for i := 0 to |alpha|
      invariant forall k :: 0 <= k < i ==> d[k] == if alpha[k] > 0 then 0 else FAR as int32
    {
      d[i] := if alpha[i] > 0 then 0 else FAR as int32;
    }
  }

  lemma SeedIsGood(w: int, h: int, alpha: seq<bv8>, d: seq<int32>)
    requires |alpha| == |d| == w * h
    requires forall i :: 0 <= i < |d| ==> d[i] == if alpha[i] > 0 then 0 else FAR as int32
    ensures Good(w, h, SolidAt(w, h, alpha), FieldOf(w, h, d))
    ensures forall x, y :: InPicture(w, h, x, y) && SolidAt(w, h, alpha)(x, y) ==> FieldOf(w, h, d)(x, y) == 0
  {
    var f, solid := FieldOf(w, h, d), SolidAt(w, h, alpha);
    forall x, y ensures 0 <= f(x, y) <= FAR && Earned(w, h, solid, f(x, y), x, y) {
      if InPicture(w, h, x, y) && f(x, y) == 0 { assert solid(x, y) && Dist(x - x, y - y) <= 0; }
    }
  }

  /** The transform: every pixel's exact 3-4 distance from the drawing, cut at FAR; no sum overflows. */
  method Transform(w: int, h: int, alpha: seq<bv8>) returns (d: array<int32>)
    requires w >= 0 && h >= 0 && |alpha| == w * h
    ensures fresh(d) && d.Length == w * h && InRange(d[..])
    ensures forall x, y :: InPicture(w, h, x, y) ==>
      IsDistance(w, h, SolidAt(w, h, alpha), d[Place(w, h, x, y)] as int, x, y)
  {
    d := Seed(w, h, alpha);
    ghost var solid, start := SolidAt(w, h, alpha), FieldOf(w, h, d[..]);
    SeedIsGood(w, h, alpha, d[..]);
    PassForth(d, w, h, solid);
    ghost var first := FieldOf(w, h, d[..]);
    PassBack(d, w, h, solid);
    BothPassesAreExact(w, h, solid, start, first, FieldOf(w, h, d[..]));
    forall x, y | InPicture(w, h, x, y) ensures IsDistance(w, h, solid, d[Place(w, h, x, y)] as int, x, y) {
      assert FieldOf(w, h, d[..])(x, y) == d[Place(w, h, x, y)] as int;
    }
  }

  /** A value is within the limit exactly when some solid pixel is, or the limit takes in FAR itself. */
  lemma LimitIff(w: int, h: int, solid: (int, int) -> bool, v: int, r: int, x: int, y: int)
    requires IsDistance(w, h, solid, v, x, y)
    ensures v <= 3 * r <==> 3 * r >= FAR || WithinBorder(w, h, solid, r, x, y)
  {
    if v <= 3 * r && v < FAR {
      var px, py :| InPicture(w, h, px, py) && solid(px, py) && Dist(x - px, y - py) <= v;
    }
  }

  method Paint(d: array<int32>, limit: int32) returns (white: array<bool>)
    ensures white.Length == d.Length
    ensures forall k :: 0 <= k < d.Length ==> (white[k] <==> d[k] <= limit)
  {
    white := new bool[d.Length](_ => false);
    for i := 0 to d.Length
      invariant forall k :: 0 <= k < i ==> (white[k] <==> d[k] <= limit)
    {
      white[i] := d[i] <= limit;
    }
  }

  /** The border: exactly the pixels within 3r of the drawing are painted, unless 3r reaches FAR and all are. */
  method Keyline(w: int, h: int, alpha: seq<bv8>, r: int) returns (white: array<bool>)
    requires w >= 0 && h >= 0 && |alpha| == w * h && -0x8000_0000 <= 3 * r < 0x8000_0000
    ensures white.Length == w * h
    ensures forall x, y :: InPicture(w, h, x, y) ==>
      (white[Place(w, h, x, y)] <==> 3 * r >= FAR || WithinBorder(w, h, SolidAt(w, h, alpha), r, x, y))
  {
    var d := Transform(w, h, alpha);
    white := Paint(d, (r * 3) as int32);
    forall x, y | InPicture(w, h, x, y)
      ensures white[Place(w, h, x, y)] <==> 3 * r >= FAR || WithinBorder(w, h, SolidAt(w, h, alpha), r, x, y)
    {
      LimitIff(w, h, SolidAt(w, h, alpha), d[Place(w, h, x, y)] as int, r, x, y);
    }
  }
}
