/** Facts about products and quotients that the solver does not find alone. */
module Arithmetic {

  lemma MulMonotone(a: int, b: int, n: nat)
    requires a <= b
    ensures a * n <= b * n
  {
    assert (b - a) * n >= 0;
    assert (b - a) * n == b * n - a * n;
  }

  lemma UniqueQuotient(q: int, c: int, r: int, o: int, n: nat)
    requires q * n + r == c * n + o && 0 <= r < n && 0 <= o < n
    ensures q == c && r == o
  {
    assert (q + 1) * n == q * n + n && (c + 1) * n == c * n + n;
    if q < c {
      MulMonotone(q + 1, c, n);
    } else if c < q {
      MulMonotone(c + 1, q, n);
    }
  }

  lemma QuotientAndRemainder(offset: nat, c: nat, count: nat)
    requires offset < count
    ensures (offset + c * count) / count == c && (offset + c * count) % count == offset
  {
    var p := offset + c * count;
    assert p == p / count * count + p % count;
    UniqueQuotient(p / count, c, p % count, offset, count);
  }

  /** A position in a table with `count` columns is a row and a column. */
  lemma RowAndColumn(p: nat, count: nat, rows: nat)
    requires p < rows * count
    ensures count > 0 && 0 <= p % count < count && 0 <= p / count < rows
    ensures p == p % count + p / count * count
  {
    if count > 0 {
      assert p == p / count * count + p % count;
      if p / count >= rows {
        MulMonotone(rows, p / count, count);
      }
    }
  }

  lemma Position(offset: nat, c: nat, count: nat, rows: nat)
    requires offset < count && c < rows
    ensures 0 <= offset + c * count < rows * count
  {
    MulMonotone(c + 1, rows, count);
    MulMonotone(0, c, count);
    assert (c + 1) * count == c * count + count;
  }

  lemma QuotientBounds(pixels: nat, bits: nat)
    requires 0 < bits <= pixels
    ensures pixels == bits * (pixels / bits) + pixels % bits
    ensures pixels / bits >= 1
  {
    assert pixels == pixels / bits * bits + pixels % bits;
    if pixels / bits < 1 {
      MulMonotone(pixels / bits, 0, bits);
    }
  }
}
