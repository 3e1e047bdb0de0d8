// Face (src/model/face.cpp, duplicated in src/model.cpp; declared in
// include/3dconv/model.hpp): an ordered list of vertex indices into the
// owning Model, optional parallel texture-vertex and vertex-normal index
// lists, and a cached face normal. The weak reference to the owning Model
// is `owner`: None once the Model has expired.
module Faces {
  import opened Wrappers
  import opened FaceOrder

  /** A float coordinate triple or quadruple; the model only copies them. */
  datatype FVec3 = FVec3(x: real, y: real, z: real)
  datatype FVec4 = FVec4(x: real, y: real, z: real, w: real)

  /** ModelError carries the source's message; OutOfRange is the failure of a bounds-checked `at()`. */
  datatype FaceError = ModelError(message: string) | OutOfRange(index: nat, size: nat)

  const TooFewVertices := "Face must contain at least 3 vertices."
  const TextureCountMismatch := "Face must either contain no texture vertices or the same number of texture vertices as geometric vertices."
  const NormalCountMismatch := "Face must either contain no vertex normals or the same number of vertex normals as geometric vertices."
  const Expired := "The associated Model object has been expired."
  const InvalidVertex := "Invalid vertex index."
  const InvalidTextureVertex := "Invalid texture vertex index."
  const InvalidVertexNormal := "Invalid vertex normal index."

  /**
   * A Face as a value, as it is stored in a Model's face set. `normal` is
   * the cache: Some(n) when `is_normal_set_`.
   */
  datatype FaceValue = FaceValue(
    owner: Option<object>,
    vertices: seq<nat>,
    textureVertices: seq<nat>,
    vertexNormals: seq<nat>,
    normal: Option<FVec3>)

  /** The owning Model's list sizes, which `validate` checks indices against. */
  datatype Sizes = Sizes(vertices: nat, textureVertices: nat, vertexNormals: nat)

  predicate NoDup<T(==)>(s: seq<T>)
  {
    forall i, j :: 0 <= i < j < |s| ==> s[i] != s[j]
  }

  // ---------------------------------------------------------------------
  // add_vertex / add_texture_vertex: push_back unless already present

  function AppendIfAbsent(s: seq<nat>, x: nat): seq<nat>
  {
    if x in s then s else s + [x]
  }

  lemma AppendIfAbsentKeepsNoDup(s: seq<nat>, x: nat)
    requires NoDup(s)
    ensures NoDup(AppendIfAbsent(s, x))
  {
  }

  /** The index set grows by exactly x, and x is appended iff it was absent. */
  lemma AppendIfAbsentElems(s: seq<nat>, x: nat)
    ensures ElemSet(AppendIfAbsent(s, x)) == ElemSet(s) + {x}
    ensures x !in s <==> AppendIfAbsent(s, x) == s + [x]
    ensures x in s <==> AppendIfAbsent(s, x) == s
  {
    var r := AppendIfAbsent(s, x);
    if x !in s {
      assert r[|s|] == x;
      assert r != s;
    }
  }

  lemma AppendIfAbsentIdempotent(s: seq<nat>, x: nat)
    ensures AppendIfAbsent(AppendIfAbsent(s, x), x) == AppendIfAbsent(s, x)
  {
    AppendIfAbsentElems(s, x);
  }

  /** std::find: the first position holding x, or |s|. */
  method Find(s: seq<nat>, x: nat) returns (k: nat)
    ensures k <= |s|
    ensures k < |s| ==> s[k] == x
    ensures x !in s[..k]
    ensures k == |s| <==> x !in s
  {
    k := 0;
    while k < |s| && s[k] != x
      invariant k <= |s|
      invariant x !in s[..k]
    {
      k := k + 1;
    }
    if k == |s| {
      assert s[..k] == s;
    }
  }

  // ---------------------------------------------------------------------
  // The sub-face constructor: project index positions

  /** [s[i] | i in indices] */
  function Project(s: seq<nat>, indices: seq<nat>): (r: seq<nat>)
    requires forall k :: 0 <= k < |indices| ==> indices[k] < |s|
    ensures |r| == |indices|
  {
    seq(|indices|, k requires 0 <= k < |indices| => s[indices[k]])
  }

  predicate InRange(indices: seq<nat>, n: nat)
  {
    forall k :: 0 <= k < |indices| ==> indices[k] < n
  }

  /** What `std::vector::operator[]` in the sub-face constructor demands. */
  predicate CanProject(orig: FaceValue, indices: seq<nat>)
  {
    InRange(indices, |orig.vertices|)
    && (|orig.textureVertices| > 0 ==> InRange(indices, |orig.textureVertices|))
    && (|orig.vertexNormals| > 0 ==> InRange(indices, |orig.vertexNormals|))
  }

  /** The face Face(orig, indices) builds: same owner, no cached normal. */
  function SubFaceValue(orig: FaceValue, indices: seq<nat>): FaceValue
    requires CanProject(orig, indices)
  {
    FaceValue(
      orig.owner,
      Project(orig.vertices, indices),
      if |orig.textureVertices| == 0 then [] else Project(orig.textureVertices, indices),
      if |orig.vertexNormals| == 0 then [] else Project(orig.vertexNormals, indices),
      None)
  }

  /** Projecting a projection is projecting the composed positions. */
  lemma ProjectCompose(s: seq<nat>, a: seq<nat>, b: seq<nat>)
    requires InRange(a, |s|) && InRange(b, |a|)
    ensures InRange(Project(a, b), |s|)
    ensures Project(Project(s, a), b) == Project(s, Project(a, b))
  {
  }

  /** Distinct positions of a duplicate-free list pick distinct indices. */
  lemma ProjectNoDup(s: seq<nat>, indices: seq<nat>)
    requires InRange(indices, |s|)
    requires NoDup(s) && NoDup(indices)
    ensures NoDup(Project(s, indices))
  {
  }

  lemma ProjectElems(s: seq<nat>, indices: seq<nat>)
    requires InRange(indices, |s|)
    ensures ElemSet(Project(s, indices)) <= ElemSet(s)
  {
    forall x | x in ElemSet(Project(s, indices))
      ensures x in ElemSet(s)
    {
      var k :| 0 <= k < |indices| && Project(s, indices)[k] == x;
      assert s[indices[k]] == x;
    }
  }

  // ---------------------------------------------------------------------
  // validate: the first violated rule is reported

  predicate AllBelow(s: seq<nat>, n: nat)
  {
    forall x | x in s :: x < n
  }

  /**
   * Face::validate. `sizes` are the owner's list sizes, read only when the
   * owner is still alive.
   */
  function ValidateFace(f: FaceValue, sizes: Sizes): (r: Outcome<FaceError>)
    ensures r.Pass? <==>
      |f.vertices| >= 3
      && (|f.textureVertices| == 0 || |f.textureVertices| == |f.vertices|)
      && (|f.vertexNormals| == 0 || |f.vertexNormals| == |f.vertices|)
      && f.owner.Some?
      && (forall v :: v in f.vertices ==> v < sizes.vertices)
      && (forall t :: t in f.textureVertices ==> t < sizes.textureVertices)
      && (forall n :: n in f.vertexNormals ==> n < sizes.vertexNormals)
    ensures r.Fail? ==> r.error.ModelError?
  {
    if |f.vertices| < 3 then Fail(ModelError(TooFewVertices))
    else if |f.textureVertices| != 0 && |f.textureVertices| != |f.vertices| then
      Fail(ModelError(TextureCountMismatch))
    else if |f.vertexNormals| != 0 && |f.vertexNormals| != |f.vertices| then
      Fail(ModelError(NormalCountMismatch))
    else if f.owner.None? then Fail(ModelError(Expired))
    else if !AllBelow(f.vertices, sizes.vertices) then Fail(ModelError(InvalidVertex))
    else if !AllBelow(f.textureVertices, sizes.textureVertices) then Fail(ModelError(InvalidTextureVertex))
    else if !AllBelow(f.vertexNormals, sizes.vertexNormals) then Fail(ModelError(InvalidVertexNormal))
    else Pass
  }

  /** The rules of validate, in the order they are checked. */
  function Rules(f: FaceValue, sizes: Sizes): seq<(bool, string)>
  {
    [ (|f.vertices| >= 3, TooFewVertices),
      (|f.textureVertices| == 0 || |f.textureVertices| == |f.vertices|, TextureCountMismatch),
      (|f.vertexNormals| == 0 || |f.vertexNormals| == |f.vertices|, NormalCountMismatch),
      (f.owner.Some?, Expired),
      (AllBelow(f.vertices, sizes.vertices), InvalidVertex),
      (AllBelow(f.textureVertices, sizes.textureVertices), InvalidTextureVertex),
      (AllBelow(f.vertexNormals, sizes.vertexNormals), InvalidVertexNormal) ]
  }

  /**
   * validate fails with rule k's message exactly when rule k is the first
   * rule that does not hold.
   */
  lemma ValidateReportsFirstBrokenRule(f: FaceValue, sizes: Sizes, k: nat)
    requires k < 7
    ensures ValidateFace(f, sizes) == Fail(ModelError(Rules(f, sizes)[k].1)) <==>
      !Rules(f, sizes)[k].0 && forall j :: 0 <= j < k ==> Rules(f, sizes)[j].0
  {
    var rs := Rules(f, sizes);
    var r := ValidateFace(f, sizes);
    // The seven messages have pairwise different lengths.
    assert |TooFewVertices| == 38 && |TextureCountMismatch| == 106 && |NormalCountMismatch| == 102;
    assert |Expired| == 45 && |InvalidVertex| == 21 && |InvalidTextureVertex| == 29;
    assert |InvalidVertexNormal| == 28;
    if r.Pass? {
      assert forall j :: 0 <= j < 7 ==> rs[j].0;
    } else if !rs[0].0 {
      assert r.error.message == rs[0].1;
    } else if !rs[1].0 {
      assert r.error.message == rs[1].1;
    } else if !rs[2].0 {
      assert r.error.message == rs[2].1;
    } else if !rs[3].0 {
      assert r.error.message == rs[3].1;
    } else if !rs[4].0 {
      assert r.error.message == rs[4].1;
    } else if !rs[5].0 {
      assert r.error.message == rs[5].1;
    } else {
      assert r.error.message == rs[6].1;
    }
  }

  /** A face that validates keeps validating when the Model's lists grow. */
  lemma ValidateMonotone(f: FaceValue, s1: Sizes, s2: Sizes)
    requires s1.vertices <= s2.vertices && s1.textureVertices <= s2.textureVertices
    requires s1.vertexNormals <= s2.vertexNormals
    requires ValidateFace(f, s1).Pass?
    ensures ValidateFace(f, s2).Pass?
  {
  }

  /** A sub-face of at least three positions of a valid face is valid. */
  lemma ValidateSubFace(f: FaceValue, indices: seq<nat>, sizes: Sizes)
    requires ValidateFace(f, sizes).Pass? && InRange(indices, |f.vertices|)
    requires |indices| >= 3
    ensures CanProject(f, indices)
    ensures ValidateFace(SubFaceValue(f, indices), sizes).Pass?
  {
    var g := SubFaceValue(f, indices);
    forall v | v in g.vertices
      ensures v < sizes.vertices
    {
      var k :| 0 <= k < |indices| && g.vertices[k] == v;
      assert f.vertices[indices[k]] in f.vertices;
    }
    forall t | t in g.textureVertices
      ensures t < sizes.textureVertices
    {
      var k :| 0 <= k < |g.textureVertices| && g.textureVertices[k] == t;
      assert f.textureVertices[indices[k]] in f.textureVertices;
    }
    forall n | n in g.vertexNormals
      ensures n < sizes.vertexNormals
    {
      var k :| 0 <= k < |g.vertexNormals| && g.vertexNormals[k] == n;
      assert f.vertexNormals[indices[k]] in f.vertexNormals;
    }
  }

  // ---------------------------------------------------------------------
  // compute_normal: the choice of three vertices

  /**
   * The floating-point geometry compute_normal relies on, left abstract:
   * cross(a, b, c) is the unnormalised cross_product(b - a, c - a);
   * distance(a, b) is euclidean_norm(a - b); lineDistance(n, a, b, p) is
   * |dot_product(p - a, cross_product(n, b - a, Normalize::Yes))|.
   */
  datatype Geometry = Geometry(
    cross: (FVec4, FVec4, FVec4) -> FVec4,
    distance: (FVec4, FVec4) -> real,
    lineDistance: (FVec4, FVec4, FVec4, FVec4) -> real)

  /** vec_slice<0, 3> */
  function Slice3(v: FVec4): FVec3
  {
    FVec3(v.x, v.y, v.z)
  }

  function Max0(x: real): real
  {
    if x > 0.0 then x else 0.0
  }

  /** (a, b) comes before (i, j) in the nested loops' visiting order. */
  predicate PairBefore(a: nat, b: nat, i: nat, j: nat)
  {
    a < i || (a == i && b < j)
  }

  /** The distance between the vertices at positions a and b. */
  function Dist(pts: seq<FVec4>, dist: (FVec4, FVec4) -> real, a: nat, b: nat): real
    requires a < |pts| && b < |pts|
  {
    dist(pts[a], pts[b])
  }

  /**
   * The pair the strict `>` scan selects: the first pair (in loop order)
   * with the largest positive distance, or the initial (0, 1) when no
   * distance is positive.
   */
  ghost predicate IsFarthestPair(pts: seq<FVec4>, dist: (FVec4, FVec4) -> real, i0: nat, i1: nat)
  {
    i0 < i1 < |pts|
    && (Dist(pts, dist, i0, i1) > 0.0 || (i0 == 0 && i1 == 1))
    && (forall i, j :: 0 <= i < j < |pts| ==> Dist(pts, dist, i, j) <= Max0(Dist(pts, dist, i0, i1)))
    && (forall i, j :: 0 <= i < j < |pts| && PairBefore(i, j, i0, i1) ==>
          Dist(pts, dist, i, j) < Dist(pts, dist, i0, i1))
  }

  /** At most one pair meets that description. */
  lemma FarthestPairUnique(pts: seq<FVec4>, dist: (FVec4, FVec4) -> real, a0: nat, a1: nat, b0: nat, b1: nat)
    requires IsFarthestPair(pts, dist, a0, a1) && IsFarthestPair(pts, dist, b0, b1)
    ensures a0 == b0 && a1 == b1
  {
  }

  /**
   * The state of the nested loops before visiting pair (i, j): every pair
   * visited so far is at most `d`, and those visited before (i0, i1) are
   * below it.
   */
  ghost predicate PairScan(pts: seq<FVec4>, dist: (FVec4, FVec4) -> real, i: nat, j: nat, i0: nat, i1: nat, d: real)
  {
    i0 < i1 < |pts|
    && ((d == 0.0 && i0 == 0 && i1 == 1)
        || (d > 0.0 && d == Dist(pts, dist, i0, i1) && PairBefore(i0, i1, i, j)))
    && (forall a, b :: 0 <= a < b < |pts| && PairBefore(a, b, i, j) ==> Dist(pts, dist, a, b) <= d)
    && (forall a, b :: 0 <= a < b < |pts| && PairBefore(a, b, i, j) && PairBefore(a, b, i0, i1) ==>
          Dist(pts, dist, a, b) < d)
  }

  lemma PairScanStep(pts: seq<FVec4>, dist: (FVec4, FVec4) -> real, i: nat, j: nat, i0: nat, i1: nat, d: real)
    requires PairScan(pts, dist, i, j, i0, i1, d) && i < j < |pts|
    ensures Dist(pts, dist, i, j) > d ==> PairScan(pts, dist, i, j + 1, i, j, Dist(pts, dist, i, j))
    ensures Dist(pts, dist, i, j) <= d ==> PairScan(pts, dist, i, j + 1, i0, i1, d)
  {
    var nd := Dist(pts, dist, i, j);
    if nd > d {
      forall a, b | 0 <= a < b < |pts| && PairBefore(a, b, i, j + 1) && PairBefore(a, b, i, j)
        ensures Dist(pts, dist, a, b) < nd
      {
        assert PairBefore(a, b, i, j);
      }
    } else {
      forall a, b | 0 <= a < b < |pts| && PairBefore(a, b, i, j + 1) && PairBefore(a, b, i0, i1)
        ensures Dist(pts, dist, a, b) < d
      {
      }
    }
  }

  lemma PairScanRow(pts: seq<FVec4>, dist: (FVec4, FVec4) -> real, i: nat, i0: nat, i1: nat, d: real)
    requires PairScan(pts, dist, i, |pts|, i0, i1, d) && i < |pts|
    ensures PairScan(pts, dist, i + 1, i + 2, i0, i1, d)
  {
  }

  lemma PairScanDone(pts: seq<FVec4>, dist: (FVec4, FVec4) -> real, i0: nat, i1: nat, d: real)
    requires PairScan(pts, dist, |pts|, |pts| + 1, i0, i1, d)
    ensures IsFarthestPair(pts, dist, i0, i1)
  {
    assert PairBefore(0, 1, |pts|, |pts| + 1);
  }

  /** One pass of the inner loop, over the pairs (i, j) for j > i. */
  method ScanRow(pts: seq<FVec4>, dist: (FVec4, FVec4) -> real, i: nat, i0: nat, i1: nat, d: real)
    returns (i0': nat, i1': nat, d': real)
    requires i < |pts| && PairScan(pts, dist, i, i + 1, i0, i1, d)
    ensures PairScan(pts, dist, i + 1, i + 2, i0', i1', d')
  {
    i0', i1', d' := i0, i1, d;
    var j := i + 1;
    while j < |pts|
      invariant i + 1 <= j <= |pts|
      invariant PairScan(pts, dist, i, j, i0', i1', d')
    {
      var newDist := dist(pts[i], pts[j]);
      PairScanStep(pts, dist, i, j, i0', i1', d');
      if newDist > d' {
        d' := newDist;
        i0', i1' := i, j;
      }
      j := j + 1;
    }
    PairScanRow(pts, dist, i, i0', i1', d');
  }

  /** The nested loops of compute_normal that select i0 and i1. */
  method FarthestPair(pts: seq<FVec4>, dist: (FVec4, FVec4) -> real) returns (i0: nat, i1: nat)
    requires |pts| >= 2
    ensures IsFarthestPair(pts, dist, i0, i1)
  {
    var distance := 0.0;
    i0, i1 := 0, 1;
    var i := 0;
    while i < |pts|
      invariant 0 <= i <= |pts|
      invariant PairScan(pts, dist, i, i + 1, i0, i1, distance)
    {
      i0, i1, distance := ScanRow(pts, dist, i, i0, i1, distance);
      i := i + 1;
    }
    PairScanDone(pts, dist, i0, i1, distance);
  }

  /**
   * The index the second scan selects: the first index with the largest
   * positive distance from the line, or the initial 2.
   */
  ghost predicate IsFarthestFromLine(values: seq<real>, i2: nat)
  {
    i2 < |values|
    && (values[i2] > 0.0 || i2 == 2)
    && (forall i :: 0 <= i < |values| ==> values[i] <= Max0(values[i2]))
    && (values[i2] > 0.0 ==> forall i :: 0 <= i < i2 ==> values[i] < values[i2])
  }

  lemma FarthestFromLineUnique(values: seq<real>, a: nat, b: nat)
    requires IsFarthestFromLine(values, a) && IsFarthestFromLine(values, b)
    ensures a == b
  {
  }

  /** The loop that selects i2. */
  method FarthestFromLine(values: seq<real>) returns (i2: nat)
    requires |values| >= 3
    ensures IsFarthestFromLine(values, i2)
  {
    var distance := 0.0;
    i2 := 2;
    var i := 0;
    while i < |values|
      invariant 0 <= i <= |values| && i2 < |values|
      invariant (distance == 0.0 && i2 == 2) || (distance > 0.0 && distance == values[i2])
      invariant i > 2 ==> Max0(values[i2]) == distance
      invariant forall k :: 0 <= k < i ==> values[k] <= distance
      invariant distance > 0.0 ==> i2 < i && forall k :: 0 <= k < i2 ==> values[k] < distance
    {
      if values[i] > distance {
        distance := values[i];
        i2 := i;
      }
      i := i + 1;
    }
  }

  /** The three compare-and-swaps that order i0, i1, i2. */
  method Sort3(a: nat, b: nat, c: nat) returns (i0: nat, i1: nat, i2: nat)
    ensures i0 <= i1 <= i2
    ensures multiset{i0, i1, i2} == multiset{a, b, c}
  {
    i0, i1, i2 := a, b, c;
    var tmp: nat;
    if i0 > i1 { tmp := i0; i0 := i1; i1 := tmp; }
    if i1 > i2 { tmp := i1; i1 := i2; i2 := tmp; }
    if i0 > i1 { tmp := i0; i0 := i1; i1 := tmp; }
  }

  /** The first position whose vertex index is outside the Model's vertex list. */
  ghost predicate FirstOutOfRange(vs: seq<nat>, n: nat, k: nat)
  {
    k < |vs| && vs[k] >= n && forall j :: 0 <= j < k ==> vs[j] < n
  }

  /**
   * The bounds-checked lookups `mv[vertices_[k]]`. They have no side
   * effects, so the first one that throws is the first position out of
   * range in vertex order, which is the one reported here.
   */
  method Lookup(vs: seq<nat>, mv: seq<FVec4>) returns (r: Result<seq<FVec4>, FaceError>)
    ensures r.Success? <==> forall k :: 0 <= k < |vs| ==> vs[k] < |mv|
    ensures r.Success? ==> r.value == Points(vs, mv)
    ensures r.Failure? ==>
      r.error.OutOfRange? && r.error.size == |mv|
      && exists k: nat :: FirstOutOfRange(vs, |mv|, k) && r.error.index == vs[k]
  {
    var pts: seq<FVec4> := [];
    var k := 0;
    while k < |vs|
      invariant k <= |vs| && |pts| == k
      invariant forall j :: 0 <= j < k ==> vs[j] < |mv| && pts[j] == mv[vs[j]]
    {
      if vs[k] >= |mv| {
        assert FirstOutOfRange(vs, |mv|, k);
        return Failure(OutOfRange(vs[k], |mv|));
      }
      pts := pts + [mv[vs[k]]];
      k := k + 1;
    }
    return Success(pts);
  }

  /** The vertices of the face, looked up in the Model's vertex list. */
  function Points(vs: seq<nat>, mv: seq<FVec4>): (r: seq<FVec4>)
    requires forall k :: 0 <= k < |vs| ==> vs[k] < |mv|
    ensures |r| == |vs|
  {
    seq(|vs|, k requires 0 <= k < |vs| => mv[vs[k]])
  }

  /** The three positions compute_normal's non-triangle branch selects. */
  ghost predicate SelectedCorners(pts: seq<FVec4>, g: Geometry, a: nat, b: nat, c: nat)
    requires |pts| > 3
  {
    exists i0: nat, i1: nat, i2: nat ::
      IsFarthestPair(pts, g.distance, i0, i1)
      && IsFarthestFromLine(LineDistances(pts, g, i0, i1), i2)
      && a <= b <= c && multiset{a, b, c} == multiset{i0, i1, i2}
  }

  /** The distance of every vertex from the line through pts[i0], pts[i1]. */
  function LineDistances(pts: seq<FVec4>, g: Geometry, i0: nat, i1: nat): (r: seq<real>)
    requires 3 <= |pts| && i0 < |pts| && i1 < |pts|
    ensures |r| == |pts|
  {
    var n := g.cross(pts[0], pts[1], pts[2]);
    seq(|pts|, i requires 0 <= i < |pts| => g.lineDistance(n, pts[i0], pts[i1], pts[i]))
  }

  /** The selection and sorting of i0, i1, i2 in compute_normal. */
  method SelectCorners(pts: seq<FVec4>, g: Geometry) returns (a: nat, b: nat, c: nat)
    requires |pts| > 3
    ensures c < |pts| && SelectedCorners(pts, g, a, b, c)
  {
    var i0, i1 := FarthestPair(pts, g.distance);
    var values := LineDistances(pts, g, i0, i1);
    var i2 := FarthestFromLine(values);
    a, b, c := Sort3(i0, i1, i2);
    assert c in multiset{i0, i1, i2};
  }

  /**
   * What Face::compute_normal promises about its result `r`: it fails
   * with too few vertices, then with an expired owner, then on the first
   * out-of-range vertex. Otherwise a triangle's normal is the cross
   * product of its corners, and a larger face's normal is the cross product
   * of the three corners SelectCorners picks.
   */
  ghost predicate ComputedNormal(f: FaceValue, mv: seq<FVec4>, g: Geometry, r: Result<FVec3, FaceError>)
  {
    && (|f.vertices| < 3 ==> r == Failure(ModelError(TooFewVertices)))
    && (|f.vertices| >= 3 && f.owner.None? ==> r == Failure(ModelError(Expired)))
    && (|f.vertices| >= 3 && f.owner.Some? ==>
         (r.Success? <==> forall k :: 0 <= k < |f.vertices| ==> f.vertices[k] < |mv|))
    && (|f.vertices| >= 3 && f.owner.Some? && r.Failure? ==>
         exists k: nat :: FirstOutOfRange(f.vertices, |mv|, k) && r.error == OutOfRange(f.vertices[k], |mv|))
    && (r.Success? && |f.vertices| == 3 ==>
         r.value == Slice3(g.cross(mv[f.vertices[0]], mv[f.vertices[1]], mv[f.vertices[2]])))
    && (r.Success? && |f.vertices| > 3 ==>
         exists a: nat, b: nat, c: nat ::
           c < |f.vertices|
           && SelectedCorners(Points(f.vertices, mv), g, a, b, c)
           && r.value == Slice3(g.cross(mv[f.vertices[a]], mv[f.vertices[b]], mv[f.vertices[c]])))
  }

  /**
   * Face::compute_normal with its default normalisation, which the
   * abstract `g.cross` stands for: `mv` is the owner's vertex list, read
   * only while the owner is alive.
   */
  method ComputeNormal(f: FaceValue, mv: seq<FVec4>, g: Geometry) returns (r: Result<FVec3, FaceError>)
    ensures ComputedNormal(f, mv, g, r)
  {
    var vsz := |f.vertices|;
    if vsz < 3 {
      return Failure(ModelError(TooFewVertices));
    }
    if f.owner.None? {
      return Failure(ModelError(Expired));
    }
    var looked := Lookup(f.vertices, mv);
    if looked.Failure? {
      return Failure(looked.error);
    }
    var pts := looked.value;
    var normal := g.cross(pts[0], pts[1], pts[2]);
    if vsz > 3 {
      var a, b, c := SelectCorners(pts, g);
      normal := g.cross(pts[a], pts[b], pts[c]);
    }
    return Success(Slice3(normal));
  }

  /**
   * Face::normal(): the cached normal when set, otherwise compute_normal,
   * whose result is cached only when it succeeds.
   */
  method CachedNormal(f: FaceValue, mv: seq<FVec4>, g: Geometry) returns (r: Result<FVec3, FaceError>, updated: FaceValue)
    ensures f.normal.Some? ==> r == Success(f.normal.value) && updated == f
    ensures r.Failure? ==> updated == f && f.normal.None?
    ensures r.Success? ==> updated == f.(normal := Some(r.value))
    ensures f.normal.None? ==> ComputedNormal(f, mv, g, r)
  {
    if f.normal.Some? {
      return Success(f.normal.value), f;
    }
    r := ComputeNormal(f, mv, g);
    if r.Success? {
      updated := f.(normal := Some(r.value));
    } else {
      updated := f;
    }
  }

  /**
   * Once normal() has succeeded, a second normal() on the updated face
   * returns the same normal from the cache and changes nothing more.
   */
  method CachedNormalIsStable(f: FaceValue, mv: seq<FVec4>, g: Geometry)
    returns (r1: Result<FVec3, FaceError>, r2: Result<FVec3, FaceError>, updated: FaceValue)
    ensures r1.Success? ==> r2 == r1 && updated == f.(normal := Some(r1.value))
    ensures r1.Failure? ==> r2.Failure? && updated == f
  {
    var u1;
    r1, u1 := CachedNormal(f, mv, g);
    r2, updated := CachedNormal(u1, mv, g);
  }

  // ---------------------------------------------------------------------
  // The Face object: the mutators the OBJ parser and the Model use

  class Face {
    var owner: Option<object>
    var vertices: seq<nat>
    var textureVertices: seq<nat>
    var vertexNormals: seq<nat>
    var normal: FVec3
    var isNormalSet: bool

    /** The face's observable state (the normal stored without `is_normal_set_` is never read). */
    function Value(): FaceValue
      reads this
    {
      FaceValue(owner, vertices, textureVertices, vertexNormals, if isNormalSet then Some(normal) else None)
    }

    /** Face(model) */
    constructor(owner: Option<object>)
      ensures Value() == FaceValue(owner, [], [], [], None)
    {
      this.owner := owner;
      vertices := [];
      textureVertices := [];
      vertexNormals := [];
      normal := FVec3(0.0, 0.0, 0.0);
      isNormalSet := false;
    }

    /** Face(model, vertices, texture_vertices, vertex_normals, normal): the normal is stored but not marked set. */
    constructor WithIndices(owner: Option<object>, vs: seq<nat>, tvs: seq<nat>, vns: seq<nat>, n: FVec3)
      ensures Value() == FaceValue(owner, vs, tvs, vns, None)
      ensures normal == n
    {
      this.owner := owner;
      vertices := vs;
      textureVertices := tvs;
      vertexNormals := vns;
      normal := n;
      isNormalSet := false;
    }

    /** Face(orig_face, indices) */
    constructor SubFace(orig: FaceValue, indices: seq<nat>)
      requires CanProject(orig, indices)
      ensures Value() == SubFaceValue(orig, indices)
    {
      owner := orig.owner;
      normal := FVec3(0.0, 0.0, 0.0);
      isNormalSet := false;
      var vs: seq<nat> := [];
      var tvs: seq<nat> := [];
      var vns: seq<nat> := [];
      var k := 0;
      while k < |indices|
        invariant k <= |indices|
        invariant vs == Project(orig.vertices, indices[..k])
      {
        vs := vs + [orig.vertices[indices[k]]];
        k := k + 1;
      }
      if |orig.textureVertices| > 0 {
        k := 0;
        while k < |indices|
          invariant k <= |indices|
          invariant tvs == Project(orig.textureVertices, indices[..k])
        {
          tvs := tvs + [orig.textureVertices[indices[k]]];
          k := k + 1;
        }
      }
      if |orig.vertexNormals| > 0 {
        k := 0;
        while k < |indices|
          invariant k <= |indices|
          invariant vns == Project(orig.vertexNormals, indices[..k])
        {
          vns := vns + [orig.vertexNormals[indices[k]]];
          k := k + 1;
        }
      }
      assert indices[..|indices|] == indices;
      vertices := vs;
      textureVertices := tvs;
      vertexNormals := vns;
    }

    method AddVertex(v: nat)
      modifies this
      ensures vertices == AppendIfAbsent(old(vertices), v)
      ensures owner == old(owner) && textureVertices == old(textureVertices)
      ensures vertexNormals == old(vertexNormals)
      ensures normal == old(normal) && isNormalSet == old(isNormalSet)
    {
      var found := Find(vertices, v);
      if found == |vertices| {
        vertices := vertices + [v];
      }
    }

    method AddTextureVertex(tv: nat)
      modifies this
      ensures textureVertices == AppendIfAbsent(old(textureVertices), tv)
      ensures owner == old(owner) && vertices == old(vertices)
      ensures vertexNormals == old(vertexNormals)
      ensures normal == old(normal) && isNormalSet == old(isNormalSet)
    {
      var found := Find(textureVertices, tv);
      if found == |textureVertices| {
        textureVertices := textureVertices + [tv];
      }
    }

    /** Always appends, duplicates included. */
    method AddVertexNormal(vn: nat)
      modifies this
      ensures vertexNormals == old(vertexNormals) + [vn]
      ensures owner == old(owner) && vertices == old(vertices)
      ensures textureVertices == old(textureVertices)
      ensures normal == old(normal) && isNormalSet == old(isNormalSet)
    {
      vertexNormals := vertexNormals + [vn];
    }

    method SetNormal(n: FVec3)
      modifies this
      ensures Value() == old(Value()).(normal := Some(n))
    {
      normal := n;
      isNormalSet := true;
    }

    /** Face::normal() on this object. */
    method Normal(mv: seq<FVec4>, g: Geometry) returns (r: Result<FVec3, FaceError>)
      modifies this
      ensures old(isNormalSet) ==> r == Success(old(normal)) && Value() == old(Value())
      ensures r.Success? ==> Value() == old(Value()).(normal := Some(r.value))
      ensures r.Failure? ==> Value() == old(Value())
      ensures !old(isNormalSet) ==> ComputedNormal(old(Value()), mv, g, r)
    {
      var updated;
      r, updated := CachedNormal(Value(), mv, g);
      if r.Success? {
        normal := r.value;
        isNormalSet := true;
      }
    }
  }

  // ---------------------------------------------------------------------
  // std::set<Face> under Face::operator<

  function Key(f: FaceValue): seq<nat>
  {
    SortedSet(f.vertices)
  }

  /**
   * The face set's invariant: ascending in the lexicographic order of
   * vertex sets, with no two equivalent faces.
   */
  ghost predicate FaceSet(fs: seq<FaceValue>)
  {
    (forall i, j :: 0 <= i < j < |fs| ==> LexLess(Key(fs[i]), Key(fs[j])))
    && (forall i, j :: 0 <= i < |fs| && 0 <= j < |fs| && i != j ==> !Equivalent(fs[i].vertices, fs[j].vertices))
  }

  predicate HasEquivalent(fs: seq<FaceValue>, f: FaceValue)
  {
    exists k | 0 <= k < |fs| :: Equivalent(fs[k].vertices, f.vertices)
  }

  /** How many faces precede f: those whose vertex set is not above f's. */
  function InsertPos(fs: seq<FaceValue>, f: FaceValue): (p: nat)
    ensures p <= |fs|
  {
    if |fs| == 0 || LexLess(Key(f), Key(fs[0])) then 0 else 1 + InsertPos(fs[1..], f)
  }

  /** Places f before the first face whose vertex set is lexicographically above it. */
  function InsertByKey(fs: seq<FaceValue>, f: FaceValue): seq<FaceValue>
  {
    var p := InsertPos(fs, f);
    fs[..p] + [f] + fs[p..]
  }

  /** f is not below any face before its position, and is below the face at it. */
  lemma {:induction false} InsertPosSplits(fs: seq<FaceValue>, f: FaceValue)
    ensures forall k :: 0 <= k < InsertPos(fs, f) ==> !LexLess(Key(f), Key(fs[k]))
    ensures InsertPos(fs, f) < |fs| ==> LexLess(Key(f), Key(fs[InsertPos(fs, f)]))
  {
    if |fs| > 0 && !LexLess(Key(f), Key(fs[0])) {
      InsertPosSplits(fs[1..], f);
      forall k | 0 < k < InsertPos(fs, f)
        ensures !LexLess(Key(f), Key(fs[k]))
      {
        assert fs[1..][k - 1] == fs[k];
      }
    }
  }

  /** Position i of InsertByKey(fs, f) holds fs[Source(p, i)] when i != p. */
  function Source(p: nat, i: nat): nat
    requires i != p
  {
    if i < p then i else i - 1
  }

  lemma InsertByKeyAt(fs: seq<FaceValue>, f: FaceValue, i: nat)
    requires i < |fs| + 1
    ensures |InsertByKey(fs, f)| == |fs| + 1
    ensures var p := InsertPos(fs, f);
      InsertByKey(fs, f)[i] == if i == p then f else fs[Source(p, i)]
  {
  }

  lemma InsertByKeySorted(fs: seq<FaceValue>, f: FaceValue)
    requires forall i, j :: 0 <= i < j < |fs| ==> LexLess(Key(fs[i]), Key(fs[j]))
    requires forall k :: 0 <= k < |fs| ==> Key(fs[k]) != Key(f)
    ensures var r := InsertByKey(fs, f);
      forall i, j :: 0 <= i < j < |r| ==> LexLess(Key(r[i]), Key(r[j]))
  {
    var r := InsertByKey(fs, f);
    var p := InsertPos(fs, f);
    InsertPosSplits(fs, f);
    forall i, j | 0 <= i < j < |r|
      ensures LexLess(Key(r[i]), Key(r[j]))
    {
      InsertByKeyAt(fs, f, i);
      InsertByKeyAt(fs, f, j);
      if i == p {
        if j - 1 > p {
          LexLessTransitive(Key(f), Key(fs[p]), Key(fs[j - 1]));
        }
      } else if j == p {
        LexLessTotal(Key(fs[i]), Key(f));
      } else if i < p && p < j {
        LexLessTotal(Key(fs[i]), Key(f));
        LexLessTransitive(Key(fs[i]), Key(f), Key(fs[p]));
        if p < j - 1 {
          LexLessTransitive(Key(fs[i]), Key(fs[p]), Key(fs[j - 1]));
        }
      }
    }
  }

  /** std::set<Face>::insert, approximated: no-op when an equivalent face is present. */
  function SetInsert(fs: seq<FaceValue>, f: FaceValue): seq<FaceValue>
  {
    if HasEquivalent(fs, f) then fs else InsertByKey(fs, f)
  }

  lemma EquivalentSymmetric(a: seq<nat>, b: seq<nat>)
    ensures Equivalent(a, b) == Equivalent(b, a)
  {
  }

  /** Equal vertex sets are equivalent, so a face without an equivalent has a fresh key. */
  lemma KeyDiffers(fs: seq<FaceValue>, f: FaceValue)
    requires !HasEquivalent(fs, f)
    ensures forall k :: 0 <= k < |fs| ==> Key(fs[k]) != Key(f)
  {
    forall k | 0 <= k < |fs|
      ensures Key(fs[k]) != Key(f)
    {
      EquivalentMeans(fs[k].vertices, f.vertices);
      ElemSetOfSortedSet(fs[k].vertices);
      ElemSetOfSortedSet(f.vertices);
    }
  }

  lemma InsertByKeyNoEquivalent(fs: seq<FaceValue>, f: FaceValue)
    requires FaceSet(fs) && !HasEquivalent(fs, f)
    ensures var r := InsertByKey(fs, f);
      forall i, j :: 0 <= i < |r| && 0 <= j < |r| && i != j ==> !Equivalent(r[i].vertices, r[j].vertices)
  {
    var r := InsertByKey(fs, f);
    var p := InsertPos(fs, f);
    forall i, j | 0 <= i < |r| && 0 <= j < |r| && i != j
      ensures !Equivalent(r[i].vertices, r[j].vertices)
    {
      InsertByKeyAt(fs, f, i);
      InsertByKeyAt(fs, f, j);
      if i == p {
        EquivalentSymmetric(r[j].vertices, f.vertices);
        assert !Equivalent(fs[Source(p, j)].vertices, f.vertices);
      } else if j == p {
        assert !Equivalent(fs[Source(p, i)].vertices, f.vertices);
      } else {
        assert Source(p, i) != Source(p, j);
      }
    }
  }

  /**
   * Inserting keeps the set's invariant; afterwards a face equivalent to f
   * is present, and nothing that was present is lost.
   */
  lemma SetInsertKeepsFaceSet(fs: seq<FaceValue>, f: FaceValue)
    requires FaceSet(fs)
    ensures FaceSet(SetInsert(fs, f))
    ensures HasEquivalent(SetInsert(fs, f), f)
    ensures HasEquivalent(fs, f) ==> SetInsert(fs, f) == fs
    ensures !HasEquivalent(fs, f) ==> multiset(SetInsert(fs, f)) == multiset(fs) + multiset{f}
  {
    if !HasEquivalent(fs, f) {
      KeyDiffers(fs, f);
      InsertByKeySorted(fs, f);
      InsertByKeyNoEquivalent(fs, f);
      InsertByKeyContents(fs, f);
    }
  }

  lemma InsertByKeyContents(fs: seq<FaceValue>, f: FaceValue)
    ensures multiset(InsertByKey(fs, f)) == multiset(fs) + multiset{f}
    ensures HasEquivalent(InsertByKey(fs, f), f)
  {
    var p := InsertPos(fs, f);
    assert fs == fs[..p] + fs[p..];
    FaceLessIrreflexive(f.vertices);
    assert InsertByKey(fs, f)[p] == f;
  }

  /** faces_.merge(other): every face of gs is inserted, in order. */
  function SetMerge(fs: seq<FaceValue>, gs: seq<FaceValue>): seq<FaceValue>
    decreases |gs|
  {
    if |gs| == 0 then fs else SetMerge(SetInsert(fs, gs[0]), gs[1..])
  }

  lemma {:induction false} SetMergeKeepsFaceSet(fs: seq<FaceValue>, gs: seq<FaceValue>)
    requires FaceSet(fs)
    ensures FaceSet(SetMerge(fs, gs))
    ensures forall k :: 0 <= k < |gs| ==> HasEquivalent(SetMerge(fs, gs), gs[k])
    decreases |gs|
  {
    if |gs| > 0 {
      SetInsertKeepsFaceSet(fs, gs[0]);
      SetMergeKeepsFaceSet(SetInsert(fs, gs[0]), gs[1..]);
      SetMergeKeepsEquivalents(SetInsert(fs, gs[0]), gs[1..], gs[0]);
      forall k | 0 < k < |gs|
        ensures HasEquivalent(SetMerge(fs, gs), gs[k])
      {
        assert gs[1..][k - 1] == gs[k];
      }
    }
  }

  /** A face that has an equivalent in the set keeps one through later inserts. */
  lemma {:induction false} SetMergeKeepsEquivalents(fs: seq<FaceValue>, gs: seq<FaceValue>, f: FaceValue)
    requires FaceSet(fs) && HasEquivalent(fs, f)
    ensures HasEquivalent(SetMerge(fs, gs), f)
    decreases |gs|
  {
    if |gs| > 0 {
      var fs' := SetInsert(fs, gs[0]);
      SetInsertKeepsFaceSet(fs, gs[0]);
      InsertKeepsEquivalent(fs, gs[0], f);
      SetMergeKeepsEquivalents(fs', gs[1..], f);
      assert SetMerge(fs, gs) == SetMerge(fs', gs[1..]);
    }
  }

  /** Inserting keeps a face equivalent to f. */
  lemma InsertKeepsEquivalent(fs: seq<FaceValue>, g: FaceValue, f: FaceValue)
    requires HasEquivalent(fs, f)
    ensures HasEquivalent(SetInsert(fs, g), f)
  {
    var k :| 0 <= k < |fs| && Equivalent(fs[k].vertices, f.vertices);
    var fs' := SetInsert(fs, g);
    SetInsertContents(fs, g);
    assert fs[k] in multiset(fs');
    var k' :| 0 <= k' < |fs'| && fs'[k'] == fs[k];
  }

  /** Inserting keeps every face present and adds at most f. */
  lemma SetInsertContents(fs: seq<FaceValue>, f: FaceValue)
    ensures multiset(fs) <= multiset(SetInsert(fs, f)) <= multiset(fs) + multiset{f}
  {
    if !HasEquivalent(fs, f) {
      InsertByKeyContents(fs, f);
    }
  }

  /** Merging keeps every face of fs, and every face of the result comes from fs or gs. */
  lemma {:induction false} SetMergeContents(fs: seq<FaceValue>, gs: seq<FaceValue>)
    ensures multiset(fs) <= multiset(SetMerge(fs, gs)) <= multiset(fs) + multiset(gs)
    decreases |gs|
  {
    if |gs| > 0 {
      var h, rest := SetInsert(fs, gs[0]), gs[1..];
      var m := SetMerge(h, rest);
      assert SetMerge(fs, gs) == m;
      SetInsertContents(fs, gs[0]);
      SetMergeContents(h, rest);
      MultisetCons(gs);
      MultisetChain(multiset(fs), multiset(h), multiset{gs[0]}, multiset(m), multiset(rest));
    }
  }

  lemma MultisetCons<T>(s: seq<T>)
    requires |s| > 0
    ensures multiset(s) == multiset{s[0]} + multiset(s[1..])
  {
    assert s == [s[0]] + s[1..];
  }

  lemma MultisetChain<T>(a: multiset<T>, b: multiset<T>, x: multiset<T>, m: multiset<T>, r: multiset<T>)
    requires a <= b <= a + x && b <= m <= b + r
    ensures a <= m <= a + x + r
  {
  }

  /** faces_.erase(it) */
  lemma EraseKeepsFaceSet(fs: seq<FaceValue>, k: nat)
    requires FaceSet(fs) && k < |fs|
    ensures FaceSet(fs[..k] + fs[k + 1..])
  {
    var r := fs[..k] + fs[k + 1..];
    forall i | 0 <= i < |r|
      ensures r[i] == fs[if i < k then i else i + 1]
    {
    }
  }
}
