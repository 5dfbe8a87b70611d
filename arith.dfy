/** Small facts about integer division and remainder that the schedule proofs
    rely on; with them every later argument is linear arithmetic. */
module Arith {

  lemma {:induction false} MulMonotone(a: int, b: int, h: nat)
    requires 0 <= a <= b
    ensures a * h <= b * h
    decreases b - a
  {
    if a < b {
      MulMonotone(a, b - 1, h);
      assert (b - 1) * h + h == b * h;
    }
  }

  /** Dividing q * h + j by h gives back q and j. */
  lemma DivModSplit(q: nat, h: nat, j: nat)
    requires 0 < h && j < h
    ensures (q * h + j) / h == q && (q * h + j) % h == j
  {
    var k := q * h + j;
    var q', j' := k / h, k % h;
    assert k == q' * h + j';
    if q' < q {
      assert (q' + 1) * h == q' * h + h;
      MulMonotone(q' + 1, q, h);
    } else if q < q' {
      assert (q + 1) * h == q * h + h;
      MulMonotone(q + 1, q', h);
    }
  }

  lemma Distribute(a: int, b: int, h: int)
    ensures (a + b) * h == a * h + b * h
  {
  }

  /** Where a position below 2 * (m * h) falls when cut into rows of h:
      its row is below 2 * m, and below m exactly when it is below m * h. */
  lemma QuotientBounds(k: nat, h: nat, m: nat)
    requires 0 < h && k < 2 * (m * h)
    ensures k == (k / h) * h + k % h && k % h < h
    ensures k / h < 2 * m
    ensures (k < m * h) == (k / h < m)
  {
    var q := k / h;
    Distribute(m, m, h);
    if 2 * m <= q {
      MulMonotone(2 * m, q, h);
    }
    if q < m {
      Distribute(q, 1, h);
      MulMonotone(q + 1, m, h);
    } else {
      MulMonotone(m, q, h);
    }
  }

  /** Remainder of a number below 2 * m: one subtraction at most. */
  lemma ModSmall(a: nat, m: nat)
    requires 0 < m && a < 2 * m
    ensures a % m == if a < m then a else a - m
  {
    if a < m {
      DivModSplit(0, m, a);
    } else {
      DivModSplit(1, m, a - m);
    }
  }
}
