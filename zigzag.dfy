// The zig-zag index generator of Model::triangulate
// (src/model/model.cpp, src/model.cpp): a convex face with n > 3 corners
// is cut into triangles whose corner positions alternate between the two
// ends of the polygon. Two `long` triples step by (-1, +1, +1) and
// (-1, -1, +1); each triangle is (n + trind) % n, and generation stops at
// the first triangle whose first and third positions coincide.
module ZigZag {
  import opened Arith

  /** The `trind[i]` triple after m triangles: i = m % 2 selects the triple, k = m / 2 its steps. */
  function Trind(m: nat): (t: seq<int>)
    ensures |t| == 3
  {
    var k := m / 2;
    if m % 2 == 0 then [-k, 1 + k, 2 + k] else [-1 - k, -k, 2 + k]
  }

  /** `(fvcnt_vec + trind[i]) % fvcnt` for the m-th candidate triangle. */
  function Candidate(n: nat, m: nat): (ivec: seq<int>)
    requires n > 3 && m <= n - 2
    ensures |ivec| == 3
  {
    var t := Trind(m);
    [(n + t[0]) % n, (n + t[1]) % n, (n + t[2]) % n]
  }

  lemma ModSmall(x: int, n: nat)
    requires 0 <= x < n
    ensures x % n == x
  {
    DivUnique(x, n, 0, x);
  }

  lemma ModWrap(x: int, n: nat)
    requires n <= x < 2 * n
    ensures x % n == x - n
  {
    DivUnique(x, n, 1, x - n);
  }

  lemma Halves(m: nat) returns (k: nat)
    ensures k == m / 2 && m == 2 * k + m % 2 && m % 2 < 2
  {
    k := m / 2;
    DivUnique(m, 2, k, m % 2);
  }

  /** The triangle positions in closed form. */
  lemma CandidateClosedForm(n: nat, m: nat)
    requires n > 3 && m <= n - 2
    ensures var k := m / 2; var c := Candidate(n, m);
      if m % 2 == 0 then c == [if k == 0 then 0 else n - k, 1 + k, 2 + k]
      else c == [n - 1 - k, if k == 0 then 0 else n - k, 2 + k]
  {
    var k := Halves(m);
    if k == 0 {
      ModWrap(n, n);
    } else {
      ModSmall(n - k, n);
    }
    ModWrap(n + 2 + k, n);
    if m % 2 == 0 {
      ModWrap(n + 1 + k, n);
    } else {
      ModSmall(n - 1 - k, n);
    }
  }

  /** The generator stops exactly at the (n-2)-th candidate. */
  lemma StopsAtLast(n: nat, m: nat)
    requires n > 3 && m <= n - 2
    ensures Candidate(n, m)[0] == Candidate(n, m)[2] <==> m == n - 2
  {
    CandidateClosedForm(n, m);
    var k := Halves(m);
  }

  /** The m-th triangle: three distinct corner positions of the n-gon. */
  lemma TriangleWellFormed(n: nat, m: nat)
    requires n > 3 && m < n - 2
    ensures var c := Candidate(n, m);
      0 <= c[0] < n && 0 <= c[1] < n && 0 <= c[2] < n
      && c[0] != c[1] && c[1] != c[2] && c[0] != c[2]
  {
    CandidateClosedForm(n, m);
    var k := Halves(m);
  }

  /** Every corner of the polygon is a corner of some triangle. */
  lemma TrianglesCoverCorners(n: nat, v: nat)
    requires n > 3 && v < n
    ensures exists m, j :: 0 <= m < n - 2 && 0 <= j < 3 && Candidate(n, m)[j] == v
  {
    if v <= 1 {
      CandidateClosedForm(n, 0);
      assert Candidate(n, 0)[v] == v;
    } else if 2 * v <= n + 1 {
      var m := 2 * (v - 2);
      CandidateClosedForm(n, m);
      DivUnique(m, 2, v - 2, 0);
      assert Candidate(n, m)[2] == v;
    } else {
      var m := 2 * (n - 1 - v) + 1;
      CandidateClosedForm(n, m);
      DivUnique(m, 2, n - 1 - v, 1);
      assert Candidate(n, m)[0] == v;
    }
  }

  /** The triple used for triangle 2k + i. */
  lemma TrindOf(k: int, i: int)
    requires k >= 0 && 0 <= i < 2
    ensures Trind(2 * k + i) == if i == 0 then [-k, 1 + k, 2 + k] else [-1 - k, -k, 2 + k]
  {
    DivUnique(2 * k + i, 2, k, i);
  }

  function ToNat(ivec: seq<int>): seq<nat>
    requires forall j :: 0 <= j < |ivec| ==> ivec[j] >= 0
  {
    seq(|ivec|, j requires 0 <= j < |ivec| => ivec[j] as nat)
  }

  /** The triangles triangulate emits for an n-gon, n > 3. */
  function Triangles(n: nat): (r: seq<seq<nat>>)
    requires n > 3
    ensures |r| == n - 2
  {
    seq(n - 2, m requires 0 <= m < n - 2 => ToNat(Candidate(n, m)))
  }

  /** Both `trind` triples once k rounds and i steps of the current round are done. */
  function TrindState(k: int, i: int): (ts: seq<seq<int>>)
    ensures |ts| == 2 && |ts[0]| == 3 && |ts[1]| == 3
  {
    [if i == 0 then [-k, 1 + k, 2 + k] else [-k - 1, 2 + k, 3 + k],
     if i <= 1 then [-1 - k, -k, 2 + k] else [-2 - k, -1 - k, 3 + k]]
  }

  /** `trind[i] += trind_step[i]` moves to the next step. */
  lemma TrindAdvance(k: int, i: int, step: seq<seq<int>>)
    requires 0 <= i < 2 && step == [[-1, 1, 1], [-1, -1, 1]]
    ensures var t := TrindState(k, i);
      t[i := [t[i][0] + step[i][0], t[i][1] + step[i][1], t[i][2] + step[i][2]]] == TrindState(k, i + 1)
  {
  }

  /** `(fvcnt_vec + trind[i]) % fvcnt` for triangle 2k + i. */
  method Wrap(n: nat, trind: seq<seq<int>>, ghost k: int, i: nat) returns (ivec: seq<int>)
    requires n > 3 && k >= 0 && i < 2 && 2 * k + i <= n - 2
    requires trind == TrindState(k, i)
    ensures ivec == Candidate(n, 2 * k + i)
  {
    TrindOf(k, i);
    ivec := [(n + trind[i][0]) % n, (n + trind[i][1]) % n, (n + trind[i][2]) % n];
  }

  /**
   * One step of the generator: stop at a candidate whose first and third
   * positions coincide, otherwise emit it and advance trind[i].
   */
  method EmitOne(n: nat, trind: seq<seq<int>>, trindStep: seq<seq<int>>, ghost k: int, i: nat, tris: seq<seq<nat>>)
    returns (stop: bool, tris': seq<seq<nat>>, trind': seq<seq<int>>)
    requires n > 3 && k >= 0 && i < 2 && |tris| == 2 * k + i <= n - 2
    requires trind == TrindState(k, i) && trindStep == [[-1, 1, 1], [-1, -1, 1]]
    requires tris == Triangles(n)[..|tris|]
    ensures stop <==> |tris| == n - 2
    ensures stop ==> tris' == tris
    ensures !stop ==> tris' == Triangles(n)[..|tris| + 1] && trind' == TrindState(k, i + 1)
  {
    var m := |tris|;
    var ivec := Wrap(n, trind, k, i);
    StopsAtLast(n, m);
    if ivec[0] == ivec[2] {
      return true, tris, trind;
    }
    TriangleWellFormed(n, m);
    tris' := tris + [ToNat(ivec)];
    assert Triangles(n)[..m + 1] == Triangles(n)[..m] + [Triangles(n)[m]];
    TrindAdvance(k, i, trindStep);
    var stepped := [trind[i][0] + trindStep[i][0], trind[i][1] + trindStep[i][1], trind[i][2] + trindStep[i][2]];
    trind' := trind[i := stepped];
    stop := false;
  }

  /**
   * The generator loop of triangulate: the two `long` triples step
   * alternately until the first and third position of a candidate
   * coincide. It emits n - 2 triangles.
   */
  method ZigZagIndices(n: nat) returns (tris: seq<seq<nat>>)
    requires n > 3
    ensures tris == Triangles(n)
  {
    var trind := [[0, 1, 2], [-1, 0, 2]];
    var trindStep := [[-1, 1, 1], [-1, -1, 1]];
    tris := [];
    ghost var k: int := 0;
    label generate:
    while true
      invariant k >= 0 && |tris| == 2 * k && |tris| <= n - 2
      invariant trind == TrindState(k, 0)
      invariant tris == Triangles(n)[..|tris|]
      decreases n - |tris|
    {
      var i := 0;
      while i < 2
        invariant 0 <= i <= 2 && |tris| == 2 * k + i && |tris| <= n - 2
        invariant trind == TrindState(k, i)
        invariant tris == Triangles(n)[..|tris|]
      {
        var stop;
        stop, tris, trind := EmitOne(n, trind, trindStep, k, i, tris);
        if stop {
          assert Triangles(n)[..n - 2] == Triangles(n);
          break generate;
        }
        i := i + 1;
      }
      assert TrindState(k, 2) == TrindState(k + 1, 0);
      k := k + 1;
    }
  }
}
