// The fixed-size vector and matrix algebra of the converter (namespace
// linalg), over exact integers. A Mat<CoordT, Dim1, Dim2> keeps its
// Dim1 * Dim2 elements row-major; a Vec<CoordT, Dim> is a Dim x 1 matrix
// and is written here as the sequence of its elements. The dimensions,
// template parameters in the original, are fields checked by `requires`.
module LinAlg {
  import opened Arith
  import opened Wrappers

  datatype Mat = Mat(rows: nat, cols: nat, elements: seq<int>)

  predicate Valid(m: Mat)
  {
    |m.elements| == m.rows * m.cols
  }

  /** m[{i, j}]: the element at row-major position i * cols + j. */
  function Get(m: Mat, i: nat, j: nat): int
    requires Valid(m) && i < m.rows && j < m.cols
  {
    FlatIndex(i, j, m.rows, m.cols);
    m.elements[i * m.cols + j]
  }

  /** `m[{i, j}] = v` on a copy of m. */
  function Set(m: Mat, i: nat, j: nat, v: int): (r: Mat)
    requires Valid(m) && i < m.rows && j < m.cols
    ensures Valid(r) && r.rows == m.rows && r.cols == m.cols
    ensures Get(r, i, j) == v
    ensures forall i2: nat, j2: nat | i2 < m.rows && j2 < m.cols && (i2 != i || j2 != j) ::
      Get(r, i2, j2) == Get(m, i2, j2)
  {
    FlatIndex(i, j, m.rows, m.cols);
    SetFrame(m, i, j, v);
    m.(elements := m.elements[i * m.cols + j := v])
  }

  lemma SetFrame(m: Mat, i: nat, j: nat, v: int)
    requires Valid(m) && i < m.rows && j < m.cols
    ensures i * m.cols + j < |m.elements|
    ensures forall i2: nat, j2: nat | i2 < m.rows && j2 < m.cols && (i2 != i || j2 != j) ::
      Get(m.(elements := m.elements[i * m.cols + j := v]), i2, j2) == Get(m, i2, j2)
  {
    FlatIndex(i, j, m.rows, m.cols);
    forall i2: nat, j2: nat | i2 < m.rows && j2 < m.cols && (i2 != i || j2 != j)
      ensures Get(m.(elements := m.elements[i * m.cols + j := v]), i2, j2) == Get(m, i2, j2)
    {
      SetFramePoint(m, i, j, v, i2, j2);
    }
  }

  /** SetFrame at one other position (i2, j2). */
  lemma SetFramePoint(m: Mat, i: nat, j: nat, v: int, i2: nat, j2: nat)
    requires Valid(m) && i < m.rows && j < m.cols && i2 < m.rows && j2 < m.cols && (i2 != i || j2 != j)
    ensures i * m.cols + j < |m.elements|
    ensures Get(m.(elements := m.elements[i * m.cols + j := v]), i2, j2) == Get(m, i2, j2)
  {
    FlatIndex(i, j, m.rows, m.cols);
    FlatIndex(i2, j2, m.rows, m.cols);
    if i2 * m.cols + j2 == i * m.cols + j {
      FlatInjective(i2, j2, i, j, m.cols);
    }
  }

  /** Two matrices with the same shape and the same entries are equal. */
  lemma MatExt(a: Mat, b: Mat)
    requires Valid(a) && Valid(b) && a.rows == b.rows && a.cols == b.cols
    requires forall i: nat, j: nat | i < a.rows && j < a.cols :: Get(a, i, j) == Get(b, i, j)
    ensures a == b
  {
    forall k | 0 <= k < |a.elements|
      ensures a.elements[k] == b.elements[k]
    {
      FlatSplit(k, a.rows, a.cols);
      assert Get(a, k / a.cols, k % a.cols) == Get(b, k / a.cols, k % a.cols);
    }
  }

  // ---------------------------------------------------------------------
  // Equality, slicing, homogenisation

  /** operator==: false whenever the dimensions differ, else element-wise. */
  function MatEq(l: Mat, r: Mat): (b: bool)
    ensures b <==> l == r
    ensures l.rows != r.rows || l.cols != r.cols ==> !b
  {
    if l.rows != r.rows || l.cols != r.cols then false else l.elements == r.elements
  }

  /**
   * vec_slice<A, B>(v): copies v[A + i] for i < B - A. Vec::operator[] is
   * bounds-checked, so the copy throws as soon as A + i leaves v; an empty
   * slice reads nothing and never throws.
   */
  method VecSlice(v: seq<int>, a: nat, b: nat) returns (r: Option<seq<int>>)
    requires a <= b
    ensures r.Some? <==> a == b || b <= |v|
    ensures r.Some? ==> |r.value| == b - a && forall i :: 0 <= i < b - a ==> r.value[i] == v[a + i]
  {
    var res := new int[b - a];
    var i := 0;
    while i < b - a
      invariant i <= b - a
      invariant i == 0 || a + i <= |v|
      invariant forall i2 :: 0 <= i2 < i ==> res[i2] == v[a + i2]
    {
      if a + i >= |v| {
        return None;
      }
      res[i] := v[a + i];
      i := i + 1;
    }
    return Some(res[..]);
  }

  /** vec_homogenize(v, e): the 3-D vector extended by a fourth coordinate. */
  function Homogenize(v: seq<int>, e: int): (r: seq<int>)
    requires |v| == 3
    ensures |r| == 4 && r[..3] == v && r[3] == e
  {
    [v[0], v[1], v[2], e]
  }

  // ---------------------------------------------------------------------
  // Zero and identity matrices

  predicate IsZero(m: Mat)
  {
    forall k :: 0 <= k < |m.elements| ==> m.elements[k] == 0
  }

  predicate IsDiagonal(m: Mat, n: nat, c: int, last: int)
    requires Valid(m)
  {
    m.rows == n && m.cols == n &&
    forall i: nat, j: nat | i < n && j < n ::
      Get(m, i, j) == (if i != j then 0 else if i == n - 1 then last else c)
  }

  predicate IsIdentity(m: Mat, n: nat)
  {
    Valid(m) && IsDiagonal(m, n, 1, 1)
  }

  /** make_zero_mat<CoordT, Dim1, Dim2>(): every element is 0. */
  method MakeZeroMat(rows: nat, cols: nat) returns (z: Mat)
    ensures Valid(z) && z.rows == rows && z.cols == cols && IsZero(z)
    ensures forall i: nat, j: nat | i < rows && j < cols :: Get(z, i, j) == 0
  {
    var es := new int[rows * cols];
    var k := 0;
    while k < es.Length
      invariant k <= es.Length
      invariant forall k2 :: 0 <= k2 < k ==> es[k2] == 0
    {
      es[k] := 0;
      k := k + 1;
    }
    z := Mat(rows, cols, es[..]);
    forall i: nat, j: nat | i < rows && j < cols
      ensures Get(z, i, j) == 0
    {
      FlatIndex(i, j, rows, cols);
    }
  }

  /** make_id_mat<CoordT, Dim>(): 1 on the diagonal, 0 elsewhere. */
  method MakeIdMat(n: nat) returns (id: Mat)
    ensures IsIdentity(id, n)
  {
    var es := new int[n * n];
    id := Mat(n, n, es[..]);
    var i := 0;
    while i < n
      invariant i <= n && Valid(id) && id.rows == n && id.cols == n
      invariant forall i2: nat, j2: nat | i2 < i && j2 < n :: Get(id, i2, j2) == if i2 == j2 then 1 else 0
    {
      var j := 0;
      while j < n
        invariant j <= n && Valid(id) && id.rows == n && id.cols == n
        invariant forall i2: nat, j2: nat | i2 < i && j2 < n :: Get(id, i2, j2) == if i2 == j2 then 1 else 0
        invariant forall j2: nat | j2 < j :: Get(id, i, j2) == if i == j2 then 1 else 0
      {
        id := Set(id, i, j, if i == j then 1 else 0);
        j := j + 1;
      }
      i := i + 1;
    }
  }

  // ---------------------------------------------------------------------
  // Matrix product

  /** The sum over j < n of l[{i, j}] * r[{j, k}]. */
  function RowCol(l: Mat, r: Mat, i: nat, k: nat, n: nat): int
    requires Valid(l) && Valid(r) && l.cols == r.rows
    requires i < l.rows && k < r.cols && n <= l.cols
  {
    if n == 0 then 0 else RowCol(l, r, i, k, n - 1) + Get(l, i, n - 1) * Get(r, n - 1, k)
  }

  ghost predicate IsProduct(p: Mat, l: Mat, r: Mat)
    requires Valid(l) && Valid(r) && l.cols == r.rows
  {
    Valid(p) && p.rows == l.rows && p.cols == r.cols &&
    forall i: nat, k: nat | i < l.rows && k < r.cols :: Get(p, i, k) == RowCol(l, r, i, k, l.cols)
  }

  /** operator*: res[{i, k}] accumulates l[{i, j}] * r[{j, k}] over j. */
  method MatMul(l: Mat, r: Mat) returns (res: Mat)
    requires Valid(l) && Valid(r) && l.cols == r.rows
    ensures IsProduct(res, l, r)
  {
    res := MakeZeroMat(l.rows, r.cols);
    var i := 0;
    while i < l.rows
      invariant i <= l.rows && Valid(res) && res.rows == l.rows && res.cols == r.cols
      invariant forall i2: nat, k2: nat | i2 < i && k2 < r.cols :: Get(res, i2, k2) == RowCol(l, r, i2, k2, l.cols)
      invariant forall i2: nat, k2: nat | i <= i2 < l.rows && k2 < r.cols :: Get(res, i2, k2) == 0
    {
      var j := 0;
      while j < l.cols
        invariant j <= l.cols && Valid(res) && res.rows == l.rows && res.cols == r.cols
        invariant forall i2: nat, k2: nat | i2 < i && k2 < r.cols :: Get(res, i2, k2) == RowCol(l, r, i2, k2, l.cols)
        invariant forall i2: nat, k2: nat | i < i2 < l.rows && k2 < r.cols :: Get(res, i2, k2) == 0
        invariant forall k2: nat | k2 < r.cols :: Get(res, i, k2) == RowCol(l, r, i, k2, j)
      {
        var k := 0;
        while k < r.cols
          invariant k <= r.cols && Valid(res) && res.rows == l.rows && res.cols == r.cols
          invariant forall i2: nat, k2: nat | i2 < i && k2 < r.cols :: Get(res, i2, k2) == RowCol(l, r, i2, k2, l.cols)
          invariant forall i2: nat, k2: nat | i < i2 < l.rows && k2 < r.cols :: Get(res, i2, k2) == 0
          invariant forall k2: nat | k2 < k :: Get(res, i, k2) == RowCol(l, r, i, k2, j + 1)
          invariant forall k2: nat | k <= k2 < r.cols :: Get(res, i, k2) == RowCol(l, r, i, k2, j)
        {
          res := Set(res, i, k, Get(res, i, k) + Get(l, i, j) * Get(r, j, k));
          k := k + 1;
        }
        j := j + 1;
      }
      i := i + 1;
    }
  }

  /**
   * A row that is c on the diagonal and 0 elsewhere (within its first m
   * entries) picks out c times the matching row of the right operand.
   */
  lemma {:induction false} DiagonalRowSum(l: Mat, r: Mat, i: nat, k: nat, m: nat, c: int)
    requires Valid(l) && Valid(r) && l.cols == r.rows
    requires i < l.rows && k < r.cols && m <= l.cols
    requires forall j: nat | j < m :: Get(l, i, j) == if j == i then c else 0
    ensures RowCol(l, r, i, k, m) == if i < m then c * Get(r, i, k) else 0
  {
    if m > 0 {
      DiagonalRowSum(l, r, i, k, m - 1, c);
    }
  }

  /** id * m == m. */
  lemma IdentityLeft(e: Mat, m: Mat, p: Mat)
    requires IsIdentity(e, m.rows) && Valid(m) && IsProduct(p, e, m)
    ensures p == m
  {
    forall i: nat, k: nat | i < m.rows && k < m.cols
      ensures Get(p, i, k) == Get(m, i, k)
    {
      DiagonalRowSum(e, m, i, k, m.rows, 1);
    }
    MatExt(p, m);
  }

  /** m * id == m. */
  lemma IdentityRight(m: Mat, e: Mat, p: Mat)
    requires Valid(m) && IsIdentity(e, m.cols) && IsProduct(p, m, e)
    ensures p == m
  {
    forall i: nat, k: nat | i < m.rows && k < m.cols
      ensures Get(p, i, k) == Get(m, i, k)
    {
      ColumnPick(m, e, i, k, m.cols);
    }
    MatExt(p, m);
  }

  lemma {:induction false} ColumnPick(m: Mat, e: Mat, i: nat, k: nat, n: nat)
    requires Valid(m) && IsIdentity(e, m.cols)
    requires i < m.rows && k < m.cols && n <= m.cols
    ensures RowCol(m, e, i, k, n) == if k < n then Get(m, i, k) else 0
  {
    if n > 0 {
      ColumnPick(m, e, i, k, n - 1);
    }
  }

  // ---------------------------------------------------------------------
  // Element-wise operators

  function Plus(l: Mat, r: Mat): (s: Mat)
    requires |l.elements| == |r.elements|
  {
    l.(elements := seq(|l.elements|, k requires 0 <= k < |l.elements| => l.elements[k] + r.elements[k]))
  }

  function Minus(l: Mat, r: Mat): (s: Mat)
    requires |l.elements| == |r.elements|
  {
    l.(elements := seq(|l.elements|, k requires 0 <= k < |l.elements| => l.elements[k] - r.elements[k]))
  }

  /** operator+: a copy of l with each element increased by r's. */
  method Add(l: Mat, r: Mat) returns (res: Mat)
    requires Valid(l) && Valid(r) && l.rows == r.rows && l.cols == r.cols
    ensures res == Plus(l, r)
  {
    res := l;
    var i := 0;
    while i < |res.elements|
      invariant i <= |res.elements| && res.rows == l.rows && res.cols == l.cols
      invariant |res.elements| == |l.elements|
      invariant forall k :: 0 <= k < i ==> res.elements[k] == l.elements[k] + r.elements[k]
      invariant forall k :: i <= k < |l.elements| ==> res.elements[k] == l.elements[k]
    {
      res := res.(elements := res.elements[i := res.elements[i] + r.elements[i]]);
      i := i + 1;
    }
  }

  /** operator-: a copy of l with each element decreased by r's. */
  method Sub(l: Mat, r: Mat) returns (res: Mat)
    requires Valid(l) && Valid(r) && l.rows == r.rows && l.cols == r.cols
    ensures res == Minus(l, r)
  {
    res := l;
    var i := 0;
    while i < |res.elements|
      invariant i <= |res.elements| && res.rows == l.rows && res.cols == l.cols
      invariant |res.elements| == |l.elements|
      invariant forall k :: 0 <= k < i ==> res.elements[k] == l.elements[k] - r.elements[k]
      invariant forall k :: i <= k < |l.elements| ==> res.elements[k] == l.elements[k]
    {
      res := res.(elements := res.elements[i := res.elements[i] - r.elements[i]]);
      i := i + 1;
    }
  }

  /** Subtraction undoes addition. */
  lemma MinusUndoesPlus(a: Mat, b: Mat)
    requires |a.elements| == |b.elements|
    ensures Minus(Plus(a, b), b) == a
  {
    assert Minus(Plus(a, b), b).elements == a.elements;
  }

  /** Adding the zero matrix changes nothing; addition commutes on elements. */
  lemma PlusZero(a: Mat, z: Mat)
    requires |a.elements| == |z.elements| && IsZero(z)
    ensures Plus(a, z) == a
    ensures Plus(z, a).elements == a.elements
  {
    assert Plus(a, z).elements == a.elements;
  }

  // C++ integer division truncates toward zero, and the remainder takes the
  // sign of the dividend.

  function Abs(x: int): nat { if x < 0 then -x else x }

  function TruncDiv(a: int, n: int): int
    requires n != 0
  {
    if (a < 0) == (n < 0) then Abs(a) / Abs(n) else -(Abs(a) / Abs(n))
  }

  function TruncRem(a: int, n: int): int
    requires n != 0
  {
    if a < 0 then -(Abs(a) % Abs(n)) else Abs(a) % Abs(n)
  }

  /** The identity C++ guarantees: (a / n) * n + a % n == a, |a % n| < |n|. */
  lemma TruncDivRem(a: int, n: int)
    requires n != 0
    ensures TruncDiv(a, n) * n + TruncRem(a, n) == a
    ensures Abs(TruncRem(a, n)) < Abs(n)
    ensures TruncRem(a, n) != 0 ==> (TruncRem(a, n) < 0 <==> a < 0)
    ensures Abs(TruncDiv(a, n)) * Abs(n) <= Abs(a)
  {
    TruncIdentity(a, n);
    TruncBounds(a, n);
  }

  lemma TruncIdentity(a: int, n: int)
    requires n != 0
    ensures TruncDiv(a, n) * n + TruncRem(a, n) == a
  {
    var q, r := Abs(a) / Abs(n), Abs(a) % Abs(n);
    DivMod(Abs(a), Abs(n));
    SignedRecombine(a, n, q, r);
  }

  /** Quotient and remainder of the magnitudes, given the signs C++ gives them. */
  lemma SignedRecombine(a: int, n: int, q: int, r: int)
    requires n != 0
    requires Abs(a) == q * Abs(n) + r
    ensures (if (a < 0) == (n < 0) then q else -q) * n + (if a < 0 then -r else r) == a
  {
    NegMul(q, n);
  }

  lemma TruncBounds(a: int, n: int)
    requires n != 0
    ensures Abs(TruncRem(a, n)) < Abs(n)
    ensures TruncRem(a, n) != 0 ==> (TruncRem(a, n) < 0 <==> a < 0)
    ensures Abs(TruncDiv(a, n)) * Abs(n) <= Abs(a)
  {
    var aa, na := Abs(a), Abs(n);
    DivMod(aa, na);
    assert Abs(TruncDiv(a, n)) == aa / na;
  }

  lemma NegMul(x: int, y: int)
    ensures (-x) * y == -(x * y) && x * (-y) == -(x * y)
  {
  }

  function DivAll(m: Mat, n: int): Mat
    requires n != 0
  {
    m.(elements := seq(|m.elements|, k requires 0 <= k < |m.elements| => TruncDiv(m.elements[k], n)))
  }

  function RemAll(m: Mat, n: int): Mat
    requires n != 0
  {
    m.(elements := seq(|m.elements|, k requires 0 <= k < |m.elements| => TruncRem(m.elements[k], n)))
  }

  /** operator/ by a scalar, element by element (division by zero is undefined). */
  method DivScalar(m: Mat, n: int) returns (res: Mat)
    requires n != 0
    ensures res == DivAll(m, n)
  {
    res := m;
    var i := 0;
    while i < |res.elements|
      invariant i <= |res.elements| && res.rows == m.rows && res.cols == m.cols
      invariant |res.elements| == |m.elements|
      invariant forall k :: 0 <= k < i ==> res.elements[k] == TruncDiv(m.elements[k], n)
      invariant forall k :: i <= k < |m.elements| ==> res.elements[k] == m.elements[k]
    {
      res := res.(elements := res.elements[i := TruncDiv(res.elements[i], n)]);
      i := i + 1;
    }
  }

  /** operator% by a scalar, element by element. */
  method RemScalar(m: Mat, n: int) returns (res: Mat)
    requires n != 0
    ensures res == RemAll(m, n)
  {
    res := m;
    var i := 0;
    while i < |res.elements|
      invariant i <= |res.elements| && res.rows == m.rows && res.cols == m.cols
      invariant |res.elements| == |m.elements|
      invariant forall k :: 0 <= k < i ==> res.elements[k] == TruncRem(m.elements[k], n)
      invariant forall k :: i <= k < |m.elements| ==> res.elements[k] == m.elements[k]
    {
      res := res.(elements := res.elements[i := TruncRem(res.elements[i], n)]);
      i := i + 1;
    }
  }

  /** Element by element, (m / n) * n + m % n gives m back. */
  lemma DivRemRecombine(m: Mat, n: int)
    requires n != 0
    ensures forall k :: 0 <= k < |m.elements| ==>
      DivAll(m, n).elements[k] * n + RemAll(m, n).elements[k] == m.elements[k]
  {
    forall k | 0 <= k < |m.elements|
      ensures DivAll(m, n).elements[k] * n + RemAll(m, n).elements[k] == m.elements[k]
    {
      TruncDivRem(m.elements[k], n);
    }
  }

  // ---------------------------------------------------------------------
  // Dot and cross products

  function Dot(a: seq<int>, b: seq<int>): int
    requires |a| == |b|
  {
    if |a| == 0 then 0 else Dot(a[..|a| - 1], b[..|a| - 1]) + a[|a| - 1] * b[|a| - 1]
  }

  /** dot_product: the running sum of lv[i] * rv[i]. */
  method DotProduct(lv: seq<int>, rv: seq<int>) returns (res: int)
    requires |lv| == |rv|
    ensures res == Dot(lv, rv)
  {
    res := 0;
    var i := 0;
    while i < |lv|
      invariant i <= |lv|
      invariant res == Dot(lv[..i], rv[..i])
    {
      assert lv[..i + 1][..i] == lv[..i] && rv[..i + 1][..i] == rv[..i];
      res := res + lv[i] * rv[i];
      i := i + 1;
    }
    assert lv[..i] == lv && rv[..i] == rv;
  }

  lemma {:induction false} DotSymmetric(a: seq<int>, b: seq<int>)
    requires |a| == |b|
    ensures Dot(a, b) == Dot(b, a)
  {
    if |a| > 0 {
      DotSymmetric(a[..|a| - 1], b[..|a| - 1]);
    }
  }

  /** The unnormalised cross product of the first three coordinates. */
  function Cross3(l: seq<int>, r: seq<int>): (c: seq<int>)
    requires |l| >= 3 && |r| >= 3
    ensures |c| == 3
  {
    [l[1] * r[2] - l[2] * r[1], l[2] * r[0] - l[0] * r[2], l[0] * r[1] - l[1] * r[0]]
  }

  /** The result of cross_product for 3-D and homogeneous 4-D vectors. */
  function CrossOf(l: seq<int>, r: seq<int>): (c: seq<int>)
    requires |l| == |r| && (|l| == 3 || |l| == 4)
    ensures |c| == |l|
  {
    if |l| == 3 then Cross3(l, r) else Cross3(l, r) + [0]
  }

  /**
   * cross_product(lv, rv) with Normalize::No: assigns the three components
   * one by one and, for a 4-D vector, a zero fourth component.
   */
  method CrossProduct(lv: seq<int>, rv: seq<int>) returns (res: seq<int>)
    requires |lv| == |rv| && (|lv| == 3 || |lv| == 4)
    ensures res == CrossOf(lv, rv)
  {
    var c := new int[|lv|];
    c[0] := lv[1] * rv[2] - lv[2] * rv[1];
    c[1] := lv[2] * rv[0] - lv[0] * rv[2];
    c[2] := lv[0] * rv[1] - lv[1] * rv[0];
    if |lv| == 4 {
      c[3] := 0;
    }
    res := c[..];
  }

  lemma Dot3(a: seq<int>, b: seq<int>)
    requires |a| == |b| == 3
    ensures Dot(a, b) == a[0] * b[0] + a[1] * b[1] + a[2] * b[2]
  {
    assert a[..2][..1] == a[..1] && b[..2][..1] == b[..1];
    assert a[..1][..0] == [] && b[..1][..0] == [];
    assert Dot(a[..1], b[..1]) == a[0] * b[0];
    assert Dot(a[..2], b[..2]) == a[0] * b[0] + a[1] * b[1];
  }

  /** The cross product is orthogonal to both of its arguments. */
  lemma CrossOrthogonal(l: seq<int>, r: seq<int>)
    requires |l| == |r| && (|l| == 3 || |l| == 4)
    ensures Dot(CrossOf(l, r), l) == 0 && Dot(CrossOf(l, r), r) == 0
  {
    CrossDot(l, r, l);
    CrossDot(l, r, r);
  }

  /** One half of CrossOrthogonal: the product with x, which is l or r. */
  lemma CrossDot(l: seq<int>, r: seq<int>, x: seq<int>)
    requires |l| == |r| && (|l| == 3 || |l| == 4) && (x == l || x == r)
    ensures Dot(CrossOf(l, r), x) == 0
  {
    var c := CrossOf(l, r);
    if |l| == 4 {
      assert c[..3] == Cross3(l[..3], r[..3]);
      Cross3Orthogonal(l[..3], r[..3]);
      DotLastZero(c, x);
    } else {
      Cross3Orthogonal(l, r);
    }
  }

  /** A zero last component adds nothing to the dot product. */
  lemma DotLastZero(c: seq<int>, l: seq<int>)
    requires |c| == |l| > 0 && c[|c| - 1] == 0
    ensures Dot(c, l) == Dot(c[..|c| - 1], l[..|c| - 1])
  {
  }

  lemma Cross3Orthogonal(l: seq<int>, r: seq<int>)
    requires |l| == |r| == 3
    ensures Dot(Cross3(l, r), l) == 0 && Dot(Cross3(l, r), r) == 0
  {
    var c := Cross3(l, r);
    Dot3(c, l);
    Dot3(c, r);
    Orthogonal(l[0], l[1], l[2], r[0], r[1], r[2], c[0], c[1], c[2]);
  }

  /** a . c == 0 and b . c == 0 for c = a x b, written out on coordinates. */
  lemma Orthogonal(a0: int, a1: int, a2: int, b0: int, b1: int, b2: int, c0: int, c1: int, c2: int)
    requires c0 == a1 * b2 - a2 * b1 && c1 == a2 * b0 - a0 * b2 && c2 == a0 * b1 - a1 * b0
    ensures c0 * a0 + c1 * a1 + c2 * a2 == 0
    ensures c0 * b0 + c1 * b1 + c2 * b2 == 0
  {
  }

  /** Swapping the arguments negates the cross product. */
  lemma CrossAntiCommutes(l: seq<int>, r: seq<int>)
    requires |l| == |r| && (|l| == 3 || |l| == 4)
    ensures forall k :: 0 <= k < |l| ==> CrossOf(r, l)[k] == -CrossOf(l, r)[k]
  {
  }

  // ---------------------------------------------------------------------
  // Determinants

  function Row(m: Mat, i: nat): (v: seq<int>)
    requires Valid(m) && i < m.rows
    ensures |v| == m.cols
  {
    seq(m.cols, j requires 0 <= j < m.cols => Get(m, i, j))
  }

  /** determinant of a 2 x 2 matrix. */
  function Det2(m: Mat): int
    requires Valid(m) && m.rows == 2 && m.cols == 2
  {
    Get(m, 0, 0) * Get(m, 1, 1) - Get(m, 1, 0) * Get(m, 0, 1)
  }

  /** determinant of a 3 x 3 matrix, by cofactor expansion along row 0. */
  function Det3(m: Mat): int
    requires Valid(m) && m.rows == 3 && m.cols == 3
  {
    Get(m, 0, 0) * (Get(m, 1, 1) * Get(m, 2, 2) - Get(m, 1, 2) * Get(m, 2, 1))
    - Get(m, 0, 1) * (Get(m, 1, 0) * Get(m, 2, 2) - Get(m, 2, 0) * Get(m, 1, 2))
    + Get(m, 0, 2) * (Get(m, 1, 0) * Get(m, 2, 1) - Get(m, 2, 0) * Get(m, 1, 1))
  }

  /** The 2 x 2 determinant is the z-component of the rows' cross product. */
  lemma Det2IsCrossZ(m: Mat)
    requires Valid(m) && m.rows == 2 && m.cols == 2
    ensures Det2(m) == Cross3(Row(m, 0) + [0], Row(m, 1) + [0])[2]
  {
  }

  /** The 3 x 3 determinant is the triple product row0 . (row1 x row2). */
  lemma Det3IsTripleProduct(m: Mat)
    requires Valid(m) && m.rows == 3 && m.cols == 3
    ensures Det3(m) == Dot(Row(m, 0), Cross3(Row(m, 1), Row(m, 2)))
  {
    Dot3(Row(m, 0), Cross3(Row(m, 1), Row(m, 2)));
  }

  /** A 3 x 3 matrix whose first row repeats another row is singular. */
  lemma Det3RepeatedRow(m: Mat)
    requires Valid(m) && m.rows == 3 && m.cols == 3
    requires Row(m, 0) == Row(m, 1) || Row(m, 0) == Row(m, 2)
    ensures Det3(m) == 0
  {
    Det3IsTripleProduct(m);
    CrossOrthogonal(Row(m, 1), Row(m, 2));
    DotSymmetric(Row(m, 0), Cross3(Row(m, 1), Row(m, 2)));
  }

  lemma Det3Identity(e: Mat)
    requires IsIdentity(e, 3)
    ensures Det3(e) == 1
  {
    assert Get(e, 0, 0) == 1 && Get(e, 1, 1) == 1 && Get(e, 2, 2) == 1;
    assert Get(e, 0, 1) == 0 && Get(e, 0, 2) == 0;
  }

  // ---------------------------------------------------------------------
  // Translation and scaling in homogeneous coordinates

  /** The column matrix a Vec is. */
  function Column(v: seq<int>): (c: Mat)
    ensures Valid(c) && c.rows == |v| && c.cols == 1
    ensures forall j: nat | j < |v| :: Get(c, j, 0) == v[j]
  {
    Mat(|v|, 1, v)
  }

  predicate IsTranslation(m: Mat, t: seq<int>)
  {
    var n := |t|;
    Valid(m) && m.rows == n + 1 && m.cols == n + 1 &&
    forall i: nat, j: nat | i <= n && j <= n ::
      Get(m, i, j) == (if j == n && i < n then t[i] else if i == j then 1 else 0)
  }

  predicate IsScaling(m: Mat, n: nat, f: int)
  {
    Valid(m) && IsDiagonal(m, n + 1, f, 1)
  }

  /** make_translation_mat(t): the identity with t in the last column. */
  method MakeTranslationMat(t: seq<int>) returns (m: Mat)
    ensures IsTranslation(m, t)
  {
    var n := |t|;
    m := MakeIdMat(n + 1);
    var i := 0;
    while i < n
      invariant i <= n && Valid(m) && m.rows == n + 1 && m.cols == n + 1
      invariant forall i2: nat, j: nat | i2 <= n && j <= n ::
        Get(m, i2, j) == (if j == n && i2 < i then t[i2] else if i2 == j then 1 else 0)
    {
      m := Set(m, i, n, t[i]);
      i := i + 1;
    }
  }

  /** make_scaling_mat(f): the identity with f on the first n diagonal entries. */
  method MakeScalingMat(n: nat, f: int) returns (m: Mat)
    ensures IsScaling(m, n, f)
  {
    m := MakeIdMat(n + 1);
    var i := 0;
    while i < n
      invariant i <= n && Valid(m) && m.rows == n + 1 && m.cols == n + 1
      invariant forall i2: nat, j: nat | i2 <= n && j <= n ::
        Get(m, i2, j) == (if i2 != j then 0 else if i2 < i then f else 1)
    {
      m := Set(m, i, i, f);
      i := i + 1;
    }
  }

  /**
   * A translation matrix moves a point [x, y, z, 1] by t and leaves a
   * direction [x, y, z, 0] where it is.
   */
  lemma TranslationMoves(m: Mat, t: seq<int>, v: seq<int>, p: Mat)
    requires IsTranslation(m, t) && |v| == |t| + 1
    requires IsProduct(p, m, Column(v))
    ensures forall i: nat | i < |t| :: Get(p, i, 0) == v[i] + t[i] * v[|t|]
    ensures Get(p, |t|, 0) == v[|t|]
    ensures v[|t|] == 1 ==> forall i: nat | i < |t| :: Get(p, i, 0) == v[i] + t[i]
    ensures v[|t|] == 0 ==> p == Column(v)
  {
    var n := |t|;
    var c := Column(v);
    forall i: nat | i <= n
      ensures Get(p, i, 0) == (if i < n then v[i] + t[i] * v[n] else v[n])
    {
      DiagonalRowSum(m, c, i, 0, n, 1);
    }
    if v[n] == 0 {
      MatExt(p, c);
    }
  }

  /** A scaling matrix multiplies the first n coordinates by f. */
  lemma ScalingScales(m: Mat, n: nat, f: int, v: seq<int>, p: Mat)
    requires IsScaling(m, n, f) && |v| == n + 1
    requires IsProduct(p, m, Column(v))
    ensures forall i: nat | i < n :: Get(p, i, 0) == f * v[i]
    ensures Get(p, n, 0) == v[n]
  {
    var c := Column(v);
    forall i: nat | i <= n
      ensures Get(p, i, 0) == (if i < n then f * v[i] else v[n])
    {
      DiagonalRowSum(m, c, i, 0, n + 1, if i < n then f else 1);
    }
  }
}
