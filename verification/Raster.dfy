/** Pixels of a w by h picture, numbered row by row. */
module Raster {
  import opened Arithmetic

  function Index(w: int, x: int, y: int): int { y * w + x }

  predicate InPicture(w: int, h: int, x: int, y: int) { 0 <= x < w && 0 <= y < h }

  lemma IndexInRange(w: int, h: int, x: int, y: int)
    requires InPicture(w, h, x, y)
    ensures 0 <= Index(w, x, y) < w * h
    ensures Index(w, x, y) % w == x && Index(w, x, y) / w == y
  {
    MulLess(-1, y, w);
    MulLess(y, h, w);
    InBlock(y * w + x, w, y);
    Remainder(y * w + x, w);
  }

  lemma Remainder(i: int, w: int)
    requires w > 0
    ensures i == i / w * w + i % w
  {
  }

  lemma Coordinates(w: int, h: int, i: int)
    requires w > 0 && 0 <= i < w * h
    ensures InPicture(w, h, i % w, i / w) && Index(w, i % w, i / w) == i
  {
    Remainder(i, w);
    MulLess(i / w, h, w);
    MulLess(i / w, 0, w);
  }

  /** The number of a pixel that is there. */
  function Place(w: int, h: int, x: int, y: int): (i: int)
    requires InPicture(w, h, x, y)
    ensures 0 <= i < w * h && i == Index(w, x, y) && i % w == x && i / w == y
  {
    IndexInRange(w, h, x, y);
    Index(w, x, y)
  }
}
