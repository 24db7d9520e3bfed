/** Multiplication and division by a positive step. */
module Arithmetic {
  lemma {:induction false} Product(n: nat, bs: int)
    requires bs > 0
    ensures n > 0 ==> n * bs >= bs
    decreases n
  {
    if n > 1 {
      Product(n - 1, bs);
      assert n * bs == (n - 1) * bs + bs;
    }
  }

  lemma Distribute(i: int, j: int, bs: int)
    ensures (j - i) * bs == j * bs - i * bs
  {
  }

  lemma MulLess(i: int, j: int, bs: int)
    requires bs > 0
    ensures i < j <==> i * bs < j * bs
    ensures i < j ==> i * bs + bs <= j * bs
  {
    Distribute(i, j, bs);
    Distribute(j, i, bs);
    if i < j { Product(j - i, bs); }
    if j < i { Product(i - j, bs); }
  }

  /** The quotient is i exactly when b lies between i's multiple and the next. */
  lemma InBlock(b: int, bs: int, i: int)
    requires bs > 0
    ensures b / bs == i <==> i * bs <= b < i * bs + bs
  {
    var q := b / bs;
    assert q * bs <= b < q * bs + bs;
    if i < q { MulLess(i, q, bs); }
    if q < i { MulLess(q, i, bs); }
  }
}
