// Small facts about multiplication and Euclidean division on naturals,
// kept apart so that each proof obligation stays linear.
module Arith {

  lemma DivUnique(a: nat, b: nat, q: nat, r: nat)
    requires b > 0 && r < b && a == q * b + r
    ensures a / b == q && a % b == r
  {
    var q', r' := a / b, a % b;
    if q > q' {
      MulLe(q' + 1, q, b);
      assert false;
    } else if q < q' {
      MulLe(q + 1, q', b);
      Distrib(q, 1, b);
      assert false;
    }
  }

  lemma Distrib(x: int, y: int, z: int)
    ensures (x + y) * z == x * z + y * z
  {
  }

  lemma MulAssoc(x: int, y: int, z: int)
    ensures x * (y * z) == (x * y) * z
  {
  }

  lemma MulPos(x: nat, y: nat)
    requires x > 0 && y > 0
    ensures x * y > 0
  {
  }

  /** Row-major flat indexing `i * cols + j` stays inside the buffer. */
  lemma FlatIndex(i: nat, j: nat, rows: nat, cols: nat)
    requires i < rows && j < cols
    ensures i * cols + j < rows * cols
  {
    MulLe(i + 1, rows, cols);
    Distrib(i, 1, cols);
  }

  /** Distinct (row, column) pairs address distinct flat positions. */
  lemma FlatInjective(i: nat, j: nat, i2: nat, j2: nat, cols: nat)
    requires j < cols && j2 < cols && i * cols + j == i2 * cols + j2
    ensures i == i2 && j == j2
  {
    DivUnique(i * cols + j, cols, i, j);
    DivUnique(i2 * cols + j2, cols, i2, j2);
  }

  /** Every flat position below rows * cols is some (row, column). */
  lemma FlatSplit(k: nat, rows: nat, cols: nat)
    requires k < rows * cols
    ensures cols > 0 && k / cols < rows && k % cols < cols
    ensures k == (k / cols) * cols + k % cols
  {
    if cols == 0 {
      assert false;
    }
    if k / cols >= rows {
      MulLe(rows, k / cols, cols);
      assert false;
    }
  }

  /** Euclidean division: a is q * d plus a remainder below d. */
  lemma DivMod(a: nat, d: nat)
    requires d > 0
    ensures a == (a / d) * d + a % d && a % d < d
  {
  }

  /** A number below b * c has fewer than c whole b's. */
  lemma QuotientBelow(r: nat, b: nat, c: nat)
    requires b > 0 && r < b * c
    ensures r / b < c
  {
    DivMod(r, b);
    if r / b >= c {
      MulLe(c, r / b, b);
      assert false;
    }
  }

  /** q * (b * c) + (s * b + t) regrouped as (q * c + s) * b + t. */
  lemma Regroup(q: nat, b: nat, c: nat, s: nat, t: nat)
    ensures q * (b * c) + (s * b + t) == (q * c + s) * b + t
  {
    MulAssoc(q, c, b);
    assert b * c == c * b;
    Distrib(q * c, s, b);
  }

  /** One more base-256 digit below a bound p stays below 256 * p. */
  lemma DigitBelow(r: nat, m: nat, p: nat)
    requires r < p && m < 256
    ensures r * 256 + m < 256 * p
  {
    MulLe(r + 1, p, 256);
    Distrib(r, 1, 256);
  }

  /** Taking src modulo 256 * p: its low byte, then the rest modulo p. */
  lemma ModStep(src: nat, p: nat)
    requires p > 0
    ensures src % (256 * p) == (src / 256 % p) * 256 + src % 256
  {
    var h, m := src / 256, src % 256;
    DivMod(src, 256);
    var q, r := h / p, h % p;
    DivMod(h, p);
    Regroup(q, 256, p, r, m);
    DigitBelow(r, m, p);
    DivUnique(src, 256 * p, q, r * 256 + m);
  }

  lemma MulLe(x: int, y: int, z: int)
    requires x <= y && z >= 0
    ensures x * z <= y * z
  {
  }

}
