// Model (include/3dconv/model.hpp, src/model/model.cpp; the same code in
// src/model.cpp): the append-only vertex lists, the set of faces, the
// cached properties with their recalculation flags, and the operations
// that validate, convexify and triangulate the faces.
module Mesh {
  import opened Wrappers
  import Text
  import opened FaceOrder
  import opened Faces
  import opened ZigZag
  import opened Connectivity
  import opened Convexify
  import opened Watertight
  import opened Bitsets

  const NotAssociated := "Faces can only be added to their associated Model."

  /** numeric_limits<long>::max() */
  const LongMax: nat := 0x7FFF_FFFF_FFFF_FFFF

  const FaceTooLarge := "Triangulation algorithm can only be run on faces with maximum "
    + Text.NatToString(LongMax) + " vertices."

  /** The cached properties and their recalculation flags. */
  datatype Cache = Cache(
    isConnected: bool, isConvex: bool, isTriangulated: bool, isValidated: bool, isWatertight: bool,
    recalcConnectivity: bool, recalcConvexity: bool, recalcWaterTightness: bool)

  /** needs_recalc_properties() */
  function NeedsRecalc(c: Cache): Cache
  {
    c.(recalcConnectivity := true, recalcConvexity := true, recalcWaterTightness := true)
  }

  // ---------------------------------------------------------------------
  // Faces the Model can work on

  /**
   * What a successful validate leaves behind and what convexification and
   * triangulation keep: at least two vertices, texture and normal lists
   * empty or parallel, every index in range.
   */
  predicate Usable(f: FaceValue, sizes: Sizes)
  {
    |f.vertices| >= 2 && Parallel(f)
    && AllBelow(f.vertices, sizes.vertices)
    && AllBelow(f.textureVertices, sizes.textureVertices)
    && AllBelow(f.vertexNormals, sizes.vertexNormals)
  }

  /** A face that passes validate has at least three vertices, so it is neither a point nor a doubled vertex. */
  lemma PassedNotDoubled(fs: seq<FaceValue>, sizes: Sizes)
    requires forall k :: 0 <= k < |fs| ==> ValidateFace(fs[k], sizes).Pass?
    ensures forall k :: 0 <= k < |fs| ==> !Doubled(fs[k].vertices)
  {
  }

  lemma UsableGrows(fs: seq<FaceValue>, s1: Sizes, s2: Sizes)
    requires s1.vertices <= s2.vertices && s1.textureVertices <= s2.textureVertices
    requires s1.vertexNormals <= s2.vertexNormals
    requires AllUsable(fs, s1)
    ensures AllUsable(fs, s2)
  {
  }

  /** A piece of a usable face is usable: its indices are some of the face's indices. */
  lemma DescendsUsable(p: FaceValue, f: FaceValue, sizes: Sizes)
    requires Usable(f, sizes) && Descends(p, f)
    ensures Usable(p, sizes)
  {
    forall x | x in p.vertices
      ensures x < sizes.vertices
    {
      assert x in ElemSet(p.vertices);
    }
    forall x | x in p.textureVertices
      ensures x < sizes.textureVertices
    {
      assert x in ElemSet(p.textureVertices);
    }
    forall x | x in p.vertexNormals
      ensures x < sizes.vertexNormals
    {
      assert x in ElemSet(p.vertexNormals);
    }
  }

  /** The t-th zig-zag triangle has three corner positions of the n-gon. */
  lemma ZigZagInRange(n: nat, t: nat)
    requires n > 3 && t < n - 2
    ensures |Triangles(n)[t]| == 3 && InRange(Triangles(n)[t], n)
  {
    TriangleWellFormed(n, t);
  }

  /** Face(*f, {ivec[0], ivec[1], ivec[2]}): the t-th triangle triangulate emits for f. */
  function ZigZagFace(f: FaceValue, t: nat): (g: FaceValue)
    requires Parallel(f) && |f.vertices| > 3 && t < |f.vertices| - 2
    ensures |g.vertices| == 3 && Descends(g, f)
  {
    ZigZagInRange(|f.vertices|, t);
    SubFaceDescends(f, Triangles(|f.vertices|)[t]);
    SubFaceValue(f, Triangles(|f.vertices|)[t])
  }

  /** Faces with at most three vertices are equivalent exactly when they have the same vertex set. */
  lemma SmallEquivalent(a: seq<nat>, b: seq<nat>)
    requires |a| <= 3 && |b| <= 3
    ensures Equivalent(a, b) <==> ElemSet(a) == ElemSet(b)
  {
    EquivalentMeans(a, b);
    ElemSetOfSortedSet(a);
    ElemSetOfSortedSet(b);
    var A, B := ElemSet(a), ElemSet(b);
    ElemSetSize(a);
    ElemSetSize(b);
    if SharedCount(SortedSet(a), SortedSet(b)) >= 3 {
      assert |A * B| >= 3;
      SubsetFull(A * B, A);
      SubsetFull(A * B, B);
    }
  }

  lemma {:induction false} ElemSetSize(s: seq<nat>)
    ensures |ElemSet(s)| <= |s|
  {
    if |s| > 0 {
      var t := s[..|s| - 1];
      ElemSetSize(t);
      assert s == t + [s[|s| - 1]];
      assert ElemSet(s) == ElemSet(t) + {s[|s| - 1]};
    }
  }

  /** A subset at least as large as its superset is the whole set. */
  lemma SubsetFull(A: set<nat>, B: set<nat>)
    requires A <= B && |B| <= |A|
    ensures A == B
  {
    if A != B {
      var x :| x in B && x !in A;
      CardMono(A, B - {x});
    }
  }

  // ---------------------------------------------------------------------
  // The loops that walk faces_ and erase some faces

  /**
   * The walk over the face set: the first k faces are kept ones, every
   * face left comes from orig, and every kept face of orig is still there.
   */
  ghost predicate Sweep(orig: seq<FaceValue>, fs: seq<FaceValue>, k: nat, keep: FaceValue -> bool)
  {
    k <= |fs| && multiset(fs) <= multiset(orig)
    && (forall t :: 0 <= t < k ==> keep(fs[t]))
    && (forall j :: 0 <= j < |orig| && keep(orig[j]) ==> orig[j] in fs)
  }

  /** `++f`: the face at k is kept. */
  lemma SweepKeep(orig: seq<FaceValue>, fs: seq<FaceValue>, k: nat, keep: FaceValue -> bool)
    requires Sweep(orig, fs, k, keep) && k < |fs| && keep(fs[k])
    ensures Sweep(orig, fs, k + 1, keep)
  {
  }

  /** No face of a face set occurs twice: a face is equivalent to itself. */
  lemma FaceSetNoDup(fs: seq<FaceValue>)
    requires FaceSet(fs)
    ensures NoDup(fs)
  {
    forall i, j | 0 <= i < j < |fs|
      ensures fs[i] != fs[j]
    {
      FaceLessIrreflexive(fs[i].vertices);
    }
  }

  /** Erasing position k of a list without repeats removes that element and no other. */
  lemma EraseMembers<T>(fs: seq<T>, k: nat)
    requires NoDup(fs) && k < |fs|
    ensures var fs' := fs[..k] + fs[k + 1..];
      fs[k] !in fs' && multiset(fs') <= multiset(fs)
      && forall g :: g in fs && g != fs[k] ==> g in fs'
  {
    var fs' := fs[..k] + fs[k + 1..];
    assert fs == fs[..k] + [fs[k]] + fs[k + 1..];
    forall g | g in fs && g != fs[k]
      ensures g in fs'
    {
      var t :| 0 <= t < |fs| && fs[t] == g;
      if t < k {
        assert fs'[t] == g;
      } else {
        assert fs'[t - 1] == g;
      }
    }
  }

  /** `f = faces_.erase(f)`: the face at k is removed, and no other face is lost. */
  lemma SweepErase(orig: seq<FaceValue>, fs: seq<FaceValue>, k: nat, keep: FaceValue -> bool)
    requires Sweep(orig, fs, k, keep) && k < |fs| && !keep(fs[k]) && FaceSet(fs)
    ensures fs[k] in orig
    ensures var fs' := fs[..k] + fs[k + 1..];
      Sweep(orig, fs', k, keep) && FaceSet(fs') && fs[k] !in fs'
      && forall g :: g in fs' ==> g in fs
  {
    assert fs[k] in multiset(fs);
    var fs' := fs[..k] + fs[k + 1..];
    FaceSetNoDup(fs);
    EraseMembers(fs, k);
    EraseKeepsFaceSet(fs, k);
    forall g | g in fs'
      ensures g in fs
    {
      assert g in multiset(fs');
    }
    forall t | 0 <= t < k
      ensures keep(fs'[t])
    {
      assert fs'[t] == fs[t];
    }
  }

  predicate IsTriangle(f: FaceValue)
  {
    |f.vertices| == 3
  }

  predicate IsSmall(f: FaceValue)
  {
    |f.vertices| <= 3
  }

  ghost predicate AllSmall(fs: seq<FaceValue>)
  {
    forall k :: 0 <= k < |fs| ==> IsSmall(fs[k])
  }

  ghost predicate Owned(fs: seq<FaceValue>, m: object)
  {
    forall k :: 0 <= k < |fs| ==> fs[k].owner == Some(m)
  }

  ghost predicate AllUsable(fs: seq<FaceValue>, sizes: Sizes)
  {
    forall k :: 0 <= k < |fs| ==> Usable(fs[k], sizes)
  }

  /** Inserting keeps every face, and adds no face but f. */
  lemma SetInsertMembers(fs: seq<FaceValue>, f: FaceValue)
    ensures forall g :: g in fs ==> g in SetInsert(fs, f)
    ensures forall g :: g in SetInsert(fs, f) ==> g in fs || g == f
  {
    SetInsertContents(fs, f);
    forall g | g in fs
      ensures g in SetInsert(fs, f)
    {
      assert g in multiset(fs);
    }
    forall g | g in SetInsert(fs, f)
      ensures g in fs || g == f
    {
      assert g in multiset(SetInsert(fs, f));
    }
  }

  /** Inserting a face of the same owner keeps a face set of that owner, of small faces when f is small. */
  /**
   * What a Model keeps true of its faces: each belongs to m, together they
   * form a face set, a triangulated Model has no face above three vertices
   * and a validated one has only usable faces.
   */
  ghost predicate Invariant(fs: seq<FaceValue>, triangulated: bool, validated: bool, sizes: Sizes, m: object)
  {
    && Owned(fs, m)
    && FaceSet(fs)
    && (triangulated ==> AllSmall(fs))
    && (validated ==> AllUsable(fs, sizes))
  }

  /** faces_.insert of a face of the Model keeps the invariant, with is_validated_ cleared. */
  lemma InsertOwned(fs: seq<FaceValue>, f: FaceValue, triangulated: bool, validated: bool, sizes: Sizes, m: object)
    requires Invariant(fs, triangulated, validated, sizes, m) && f.owner == Some(m)
    ensures Invariant(SetInsert(fs, f), triangulated && IsSmall(f), false, sizes, m)
    ensures HasEquivalent(SetInsert(fs, f), f)
  {
    SetInsertKeepsFaceSet(fs, f);
    SetInsertMembers(fs, f);
    var r := SetInsert(fs, f);
    forall k | 0 <= k < |r|
      ensures r[k].owner == Some(m) && (triangulated && IsSmall(f) ==> IsSmall(r[k]))
    {
      assert r[k] in r;
    }
  }

  /**
   * The faces after convexification, against the faces before: every
   * triangle stays, and every other face is a triangle that was there or
   * a piece of a face that was not a triangle.
   */
  ghost predicate ConvexPieces(now: seq<FaceValue>, before: seq<FaceValue>)
  {
    (forall f :: f in before && IsTriangle(f) ==> f in now)
    && forall g :: g in now ==>
         (g in before && IsTriangle(g)) || exists f :: f in before && !IsTriangle(f) && Descends(g, f)
  }

  /** Every zig-zag triangle of every face of before over three vertices has its vertex set in now. */
  ghost predicate AllTrianglesIn(now: seq<FaceValue>, before: seq<FaceValue>)
  {
    forall f, t :: f in before && Parallel(f) && |f.vertices| > 3 && 0 <= t < |f.vertices| - 2 ==>
      exists g :: g in now && ElemSet(g.vertices) == ElemSet(ZigZagFace(f, t).vertices)
  }

  /**
   * The faces after triangulation, against the convex faces it started
   * from: faces of at most three vertices stay, every other face is
   * one of the zig-zag triangles of a larger face, and every such
   * triangle's vertex set is present.
   */
  ghost predicate ZigZagPieces(now: seq<FaceValue>, before: seq<FaceValue>)
  {
    (forall f :: f in before && IsSmall(f) ==> f in now)
    && AllTrianglesIn(now, before)
    && forall g :: g in now ==>
         (g in before && IsSmall(g))
         || exists f, t :: f in before && Parallel(f) && |f.vertices| > 3 && 0 <= t < |f.vertices| - 2
              && g == ZigZagFace(f, t)
  }

  /** The first face validate rejects. */
  ghost predicate FirstInvalid(fs: seq<FaceValue>, sizes: Sizes, k: nat)
  {
    k < |fs| && ValidateFace(fs[k], sizes).Fail?
    && forall j :: 0 <= j < k ==> ValidateFace(fs[j], sizes).Pass?
  }

  /** Model::validate's message: the face's vertex list, then Face::validate's message. */
  function ValidationMessage(f: FaceValue, sizes: Sizes): string
    requires ValidateFace(f, sizes).Fail?
  {
    FaceTag(f.vertices) + " " + ValidateFace(f, sizes).error.message
  }

  /** Model::validate's error: the first failing face's vertex list before its message. */
  ghost predicate RejectedWith(fs: seq<FaceValue>, sizes: Sizes, e: FaceError)
  {
    exists k: nat :: FirstInvalid(fs, sizes, k) && e == ModelError(ValidationMessage(fs[k], sizes))
  }

  /**
   * The validate loop: the position of the first face that fails
   * Face::validate, or |fs| when every face passes.
   */
  method FirstInvalidFace(fs: seq<FaceValue>, sizes: Sizes) returns (k: nat)
    ensures k <= |fs| && forall j :: 0 <= j < k ==> ValidateFace(fs[j], sizes).Pass?
    ensures k < |fs| ==> ValidateFace(fs[k], sizes).Fail?
  {
    k := 0;
    while k < |fs|
      invariant k <= |fs| && forall j :: 0 <= j < k ==> ValidateFace(fs[j], sizes).Pass?
    {
      if ValidateFace(fs[k], sizes).Fail? {
        return;
      }
      k := k + 1;
    }
  }

  /** Whatever check_connectivity answers for the model's faces. */
  ghost function ConnectivityOf(faces: seq<FaceValue>, nverts: nat, W: nat): bool
    requires W > 0
  {
    if |faces| == 0 then nverts == 0 else nverts > 0 && ConnectedResult(Sets(VertexLists(faces)), nverts, W)
  }

  /**
   * What is_connected answers for faces that validate: with no face, that
   * there is no vertex; otherwise that the faces are connected through
   * shared vertices and the union of their vertices passes Bitset::all().
   */
  lemma ConnectivityOfMeaning(faces: seq<FaceValue>, sizes: Sizes, W: nat)
    requires W > 0 && AllUsable(faces, sizes)
    ensures |faces| == 0 ==> (ConnectivityOf(faces, sizes.vertices, W) <==> sizes.vertices == 0)
    ensures |faces| > 0 ==> sizes.vertices > 0 && var fs := Sets(VertexLists(faces));
      (ConnectivityOf(faces, sizes.vertices, W) <==>
        Connected(fs) && AllPattern(BitsOfSet(UnionOf(fs, AllIdx(|fs|)), sizes.vertices), W))
  {
    UsableInRange(faces, sizes);
    if |faces| > 0 {
      ConnectedResultMeaning(Sets(VertexLists(faces)), sizes.vertices, W);
    }
  }

  /** The vertex set of each of the first t zig-zag triangles of f is in nf. */
  ghost predicate HasTriangles(nf: seq<FaceValue>, f: FaceValue, t: nat)
    requires Parallel(f) && |f.vertices| > 3 && t <= |f.vertices| - 2
  {
    forall s :: 0 <= s < t ==> exists g :: g in nf && ElemSet(g.vertices) == ElemSet(ZigZagFace(f, s).vertices)
  }

  /** HasTriangles survives adding faces. */
  lemma HasTrianglesGrow(nf: seq<FaceValue>, nf': seq<FaceValue>, f: FaceValue, t: nat)
    requires Parallel(f) && |f.vertices| > 3 && t <= |f.vertices| - 2
    requires HasTriangles(nf, f, t) && forall g :: g in nf ==> g in nf'
    ensures HasTriangles(nf', f, t)
  {
    forall s | 0 <= s < t
      ensures exists g :: g in nf' && ElemSet(g.vertices) == ElemSet(ZigZagFace(f, s).vertices)
    {
      assert exists g :: g in nf && ElemSet(g.vertices) == ElemSet(ZigZagFace(f, s).vertices);
      var g :| g in nf && ElemSet(g.vertices) == ElemSet(ZigZagFace(f, s).vertices);
      assert g in nf';
    }
    assert forall s :: 0 <= s < t ==> exists g :: g in nf' && ElemSet(g.vertices) == ElemSet(ZigZagFace(f, s).vertices);
  }

  /** Every face of nf is in base or one of the first t zig-zag triangles of f. */
  ghost predicate FromTriangles(nf: seq<FaceValue>, base: seq<FaceValue>, f: FaceValue, t: nat)
    requires Parallel(f) && |f.vertices| > 3 && t <= |f.vertices| - 2
  {
    forall g :: g in nf ==> g in base || exists s :: 0 <= s < t && g == ZigZagFace(f, s)
  }

  /** new_faces.emplace of the t-th triangle. */
  lemma EmplaceOne(nf: seq<FaceValue>, base: seq<FaceValue>, f: FaceValue, t: nat)
    requires Parallel(f) && |f.vertices| > 3 && t < |f.vertices| - 2
    requires FaceSet(nf) && AllSmall(nf) && HasTriangles(nf, f, t) && FromTriangles(nf, base, f, t)
    ensures var nf' := SetInsert(nf, ZigZagFace(f, t));
      FaceSet(nf') && AllSmall(nf') && HasTriangles(nf', f, t + 1) && FromTriangles(nf', base, f, t + 1)
      && forall g :: g in nf ==> g in nf'
  {
    var tri := ZigZagFace(f, t);
    EmplaceSmall(nf, tri);
    EmplaceHas(nf, f, t);
    EmplaceFrom(nf, base, f, t);
  }

  /** Inserting a triangle keeps a set of small faces a set of small faces. */
  lemma EmplaceSmall(nf: seq<FaceValue>, tri: FaceValue)
    requires FaceSet(nf) && AllSmall(nf) && IsSmall(tri)
    ensures FaceSet(SetInsert(nf, tri)) && AllSmall(SetInsert(nf, tri))
    ensures forall g :: g in nf ==> g in SetInsert(nf, tri)
  {
    var nf' := SetInsert(nf, tri);
    SetInsertKeepsFaceSet(nf, tri);
    SetInsertMembers(nf, tri);
    forall k | 0 <= k < |nf'|
      ensures IsSmall(nf'[k])
    {
      assert nf'[k] in nf';
    }
  }

  /** After the insert, the t-th triangle's vertex set is present too. */
  lemma EmplaceHas(nf: seq<FaceValue>, f: FaceValue, t: nat)
    requires Parallel(f) && |f.vertices| > 3 && t < |f.vertices| - 2
    requires FaceSet(nf) && AllSmall(nf) && HasTriangles(nf, f, t)
    ensures HasTriangles(SetInsert(nf, ZigZagFace(f, t)), f, t + 1)
  {
    var tri := ZigZagFace(f, t);
    var nf' := SetInsert(nf, tri);
    SetInsertMembers(nf, tri);
    HasTrianglesGrow(nf, nf', f, t);
    var g := InsertedWitness(nf, tri);
    HasTrianglesExtend(nf', f, t, g);
  }

  /** After inserting a small face, a face with its vertex set is present. */
  lemma InsertedWitness(nf: seq<FaceValue>, tri: FaceValue) returns (g: FaceValue)
    requires FaceSet(nf) && AllSmall(nf) && IsSmall(tri)
    ensures g in SetInsert(nf, tri) && ElemSet(g.vertices) == ElemSet(tri.vertices)
  {
    var nf' := SetInsert(nf, tri);
    EmplaceSmall(nf, tri);
    SetInsertKeepsFaceSet(nf, tri);
    var j :| 0 <= j < |nf'| && Equivalent(nf'[j].vertices, tri.vertices);
    SmallEquivalent(nf'[j].vertices, tri.vertices);
    g := nf'[j];
  }

  /** HasTriangles for t, plus the t-th triangle's vertex set, is HasTriangles for t + 1. */
  lemma HasTrianglesExtend(nf: seq<FaceValue>, f: FaceValue, t: nat, g: FaceValue)
    requires Parallel(f) && |f.vertices| > 3 && t < |f.vertices| - 2
    requires HasTriangles(nf, f, t) && g in nf && ElemSet(g.vertices) == ElemSet(ZigZagFace(f, t).vertices)
    ensures HasTriangles(nf, f, t + 1)
  {
  }

  /** After the insert, every face is still from base or a zig-zag triangle of f. */
  lemma EmplaceFrom(nf: seq<FaceValue>, base: seq<FaceValue>, f: FaceValue, t: nat)
    requires Parallel(f) && |f.vertices| > 3 && t < |f.vertices| - 2
    requires FaceSet(nf) && FromTriangles(nf, base, f, t)
    ensures FromTriangles(SetInsert(nf, ZigZagFace(f, t)), base, f, t + 1)
  {
    SetInsertMembers(nf, ZigZagFace(f, t));
  }

  /** Each zig-zag triangle of f, emplaced into new_faces in turn. */
  method EmplaceTriangles(nf: seq<FaceValue>, f: FaceValue, tris: seq<seq<nat>>) returns (nf': seq<FaceValue>)
    requires Parallel(f) && |f.vertices| > 3 && tris == Triangles(|f.vertices|)
    requires FaceSet(nf) && AllSmall(nf)
    ensures FaceSet(nf') && AllSmall(nf') && forall g :: g in nf ==> g in nf'
    ensures HasTriangles(nf', f, |tris|) && FromTriangles(nf', nf, f, |tris|)
  {
    nf' := nf;
    var t := 0;
    while t < |tris|
      invariant t <= |tris| && FaceSet(nf') && AllSmall(nf') && forall g :: g in nf ==> g in nf'
      invariant HasTriangles(nf', f, t) && FromTriangles(nf', nf, f, t)
    {
      ZigZagInRange(|f.vertices|, t);
      var tri := SubFaceValue(f, tris[t]);
      assert tri == ZigZagFace(f, t);
      EmplaceOne(nf', nf, f, t);
      nf' := SetInsert(nf', tri);
      t := t + 1;
    }
  }

  ghost predicate FromNonTriangles(nf: seq<FaceValue>, fs: seq<FaceValue>)
  {
    forall g :: g in nf ==> exists f :: f in fs && !IsTriangle(f) && Descends(g, f)
  }

  /**
   * The loop of convexify_faces over faces_: triangles stay, and every
   * other face is erased and its convex pieces are inserted into
   * new_faces. The visited edges start empty for each face.
   */
  method CutNonTriangles(fs: seq<FaceValue>, rule: SideRule, side: SideTest)
    returns (kept: seq<FaceValue>, newFaces: seq<FaceValue>)
    requires FaceSet(fs) && forall k :: 0 <= k < |fs| ==> |fs[k].vertices| >= 2 && Parallel(fs[k])
    ensures Sweep(fs, kept, |kept|, IsTriangle) && FaceSet(kept)
    ensures FaceSet(newFaces) && FromNonTriangles(newFaces, fs)
  {
    kept := fs;
    newFaces := [];
    var k := 0;
    while k < |kept|
      invariant Sweep(fs, kept, k, IsTriangle) && FaceSet(kept)
      invariant FaceSet(newFaces) && FromNonTriangles(newFaces, fs)
      decreases |kept| - k
    {
      if |kept[k].vertices| == 3 {
        SweepKeep(fs, kept, k, IsTriangle);
        k := k + 1;
      } else {
        var f := kept[k];
        SweepErase(fs, kept, k, IsTriangle);
        kept := kept[..k] + kept[k + 1..];
        ghost var before := newFaces;
        newFaces := ConvexifyFace(f, newFaces, rule, side);
        PiecesFromNonTriangles(fs, before, newFaces, f);
      }
    }
  }

  lemma PiecesFromNonTriangles(fs: seq<FaceValue>, before: seq<FaceValue>, after: seq<FaceValue>, f: FaceValue)
    requires FromNonTriangles(before, fs) && Collected(after, before, f) && f in fs && !IsTriangle(f)
    ensures FromNonTriangles(after, fs)
  {
    forall g | g in after
      ensures exists f :: f in fs && !IsTriangle(f) && Descends(g, f)
    {
      var k :| 0 <= k < |after| && after[k] == g;
      if g !in before {
        assert Descends(g, f);
      }
    }
  }

  /** What the merge at the end of convexify_faces leaves. */
  lemma MergedPieces(orig: seq<FaceValue>, kept: seq<FaceValue>, newFaces: seq<FaceValue>, merged: seq<FaceValue>,
                     m: object, sizes: Sizes)
    requires Sweep(orig, kept, |kept|, IsTriangle)
    requires Owned(orig, m) && AllUsable(orig, sizes)
    requires FromNonTriangles(newFaces, orig)
    requires multiset(kept) <= multiset(merged) <= multiset(kept) + multiset(newFaces)
    ensures ConvexPieces(merged, orig)
    ensures Owned(merged, m) && AllUsable(merged, sizes)
  {
    forall g | g in merged
      ensures (g in orig && IsTriangle(g)) || exists f :: f in orig && !IsTriangle(f) && Descends(g, f)
      ensures g.owner == Some(m) && Usable(g, sizes)
    {
      assert g in multiset(merged);
      if g in kept {
        assert g in multiset(kept);
        var t :| 0 <= t < |kept| && kept[t] == g;
        assert g in multiset(orig);
      } else {
        assert g in newFaces;
        var f :| f in orig && !IsTriangle(f) && Descends(g, f);
        DescendsUsable(g, f, sizes);
      }
    }
    forall f | f in orig && IsTriangle(f)
      ensures f in merged
    {
      assert f in kept;
      assert f in multiset(kept);
    }
    forall k | 0 <= k < |merged|
      ensures merged[k].owner == Some(m) && Usable(merged[k], sizes)
    {
      assert merged[k] in merged;
    }
  }

  /** Every face of nf is a zig-zag triangle of a face of fs with more than three vertices. */
  ghost predicate ZigZagFrom(nf: seq<FaceValue>, fs: seq<FaceValue>)
  {
    forall g :: g in nf ==>
      exists f, t :: f in fs && Parallel(f) && |f.vertices| > 3 && 0 <= t < |f.vertices| - 2 && g == ZigZagFace(f, t)
  }

  /** Every face of fs with more than three vertices that is no longer in kept has its triangles in nf. */
  ghost predicate ZigZagDone(nf: seq<FaceValue>, fs: seq<FaceValue>, kept: seq<FaceValue>)
  {
    forall f :: f in fs && f !in kept && Parallel(f) && |f.vertices| > 3 ==> HasTriangles(nf, f, |f.vertices| - 2)
  }

  /** The walk of triangulate: the state after k faces. */
  ghost predicate ZigZagging(fs: seq<FaceValue>, kept: seq<FaceValue>, nf: seq<FaceValue>, k: nat)
  {
    Sweep(fs, kept, k, IsSmall) && FaceSet(kept)
    && FaceSet(nf) && AllSmall(nf) && ZigZagFrom(nf, fs) && ZigZagDone(nf, fs, kept)
    && (forall t :: 0 <= t < k ==> |kept[t].vertices| < LongMax)
    && (forall f :: f in fs && f !in kept ==> |f.vertices| < LongMax)
  }

  /** Erasing the larger face at k and emplacing its triangles keeps the walk's state. */
  lemma ZigZagStep(fs: seq<FaceValue>, kept: seq<FaceValue>, nf: seq<FaceValue>, k: nat, nf': seq<FaceValue>)
    requires ZigZagging(fs, kept, nf, k) && k < |kept| && |kept[k].vertices| > 3
    requires |kept[k].vertices| < LongMax && Parallel(kept[k])
    requires var f := kept[k];
      FaceSet(nf') && AllSmall(nf') && (forall g :: g in nf ==> g in nf')
      && HasTriangles(nf', f, |f.vertices| - 2) && FromTriangles(nf', nf, f, |f.vertices| - 2)
    ensures ZigZagging(fs, kept[..k] + kept[k + 1..], nf', k)
  {
    var f := kept[k];
    var kept' := kept[..k] + kept[k + 1..];
    SweepErase(fs, kept, k, IsSmall);
    forall f0 | f0 in fs && f0 !in kept' && Parallel(f0) && |f0.vertices| > 3
      ensures HasTriangles(nf', f0, |f0.vertices| - 2)
    {
      if f0 != f {
        assert f0 !in kept by {
          FaceSetNoDup(kept);
          EraseMembers(kept, k);
        }
        HasTrianglesGrow(nf, nf', f0, |f0.vertices| - 2);
      }
    }
    forall g | g in nf'
      ensures exists f1, t :: (f1 in fs && Parallel(f1) && |f1.vertices| > 3 && 0 <= t < |f1.vertices| - 2
        && g == ZigZagFace(f1, t))
    {
      if g !in nf {
        var s :| 0 <= s < |f.vertices| - 2 && g == ZigZagFace(f, s);
      }
    }
    forall f0 | f0 in fs && f0 !in kept'
      ensures |f0.vertices| < LongMax
    {
      FaceSetNoDup(kept);
      EraseMembers(kept, k);
    }
    forall t | 0 <= t < k
      ensures |kept'[t].vertices| < LongMax
    {
      assert kept'[t] == kept[t];
    }
  }

  /**
   * The loop of triangulate over faces_: faces of at most three vertices
   * stay, and every larger face is erased and its zig-zag triangles are
   * emplaced into new_faces. A face of LONG_MAX vertices or more stops the
   * loop (tooLarge), with the faces erased so far gone.
   */
  method ZigZagAll(fs: seq<FaceValue>) returns (kept: seq<FaceValue>, newFaces: seq<FaceValue>, tooLarge: bool)
    requires FaceSet(fs) && forall k :: 0 <= k < |fs| ==> Parallel(fs[k])
    ensures FaceSet(kept) && multiset(kept) <= multiset(fs)
    ensures tooLarge ==> exists f :: f in kept && |f.vertices| >= LongMax
    ensures !tooLarge ==> (forall f :: f in fs ==> |f.vertices| < LongMax)
    ensures !tooLarge ==> Sweep(fs, kept, |kept|, IsSmall)
    ensures !tooLarge ==> FaceSet(newFaces) && AllSmall(newFaces)
    ensures !tooLarge ==> ZigZagFrom(newFaces, fs) && ZigZagDone(newFaces, fs, kept)
  {
    kept, newFaces := fs, [];
    var k: nat := 0;
    while k < |kept|
      invariant ZigZagging(fs, kept, newFaces, k)
      decreases |kept| - k
    {
      var stop, kept', nf', k' := ZigZagOne(fs, kept, newFaces, k);
      if stop {
        ZigZagStopped(fs, kept, newFaces, k);
        return kept, newFaces, true;
      }
      kept, newFaces, k := kept', nf', k';
    }
    ZigZagFinished(fs, kept, newFaces);
    tooLarge := false;
  }

  /** One face of the walk: stop at a face too large, cut a larger face into its triangles, or keep a small one. */
  method ZigZagOne(fs: seq<FaceValue>, kept: seq<FaceValue>, nf: seq<FaceValue>, k: nat)
    returns (stop: bool, kept': seq<FaceValue>, nf': seq<FaceValue>, k': nat)
    requires forall j :: 0 <= j < |fs| ==> Parallel(fs[j])
    requires ZigZagging(fs, kept, nf, k) && k < |kept|
    ensures stop <==> |kept[k].vertices| >= LongMax
    ensures !stop ==> ZigZagging(fs, kept', nf', k') && |kept'| - k' < |kept| - k
  {
    var f := kept[k];
    var n := |f.vertices|;
    if n >= LongMax {
      return true, kept, nf, k;
    }
    stop := false;
    if n > 3 {
      ZigZagParallel(fs, kept, nf, k);
      var tris := ZigZagIndices(n);
      nf' := EmplaceTriangles(nf, f, tris);
      ZigZagStep(fs, kept, nf, k, nf');
      kept', k' := kept[..k] + kept[k + 1..], k;
    } else {
      ZigZagKeep(fs, kept, nf, k);
      kept', nf', k' := kept, nf, k + 1;
    }
  }

  /** The faces the walk visits come from fs, so their lists are parallel. */
  lemma ZigZagParallel(fs: seq<FaceValue>, kept: seq<FaceValue>, nf: seq<FaceValue>, k: nat)
    requires forall j :: 0 <= j < |fs| ==> Parallel(fs[j])
    requires ZigZagging(fs, kept, nf, k) && k < |kept|
    ensures Parallel(kept[k])
  {
    assert kept[k] in multiset(kept);
    assert kept[k] in fs;
  }

  /** `++f`: a face of at most three vertices stays. */
  lemma ZigZagKeep(fs: seq<FaceValue>, kept: seq<FaceValue>, nf: seq<FaceValue>, k: nat)
    requires ZigZagging(fs, kept, nf, k) && k < |kept| && |kept[k].vertices| <= 3
    ensures ZigZagging(fs, kept, nf, k + 1)
  {
    SweepKeep(fs, kept, k, IsSmall);
  }

  /** The walk stopped at a face of LongMax vertices or more. */
  lemma ZigZagStopped(fs: seq<FaceValue>, kept: seq<FaceValue>, newFaces: seq<FaceValue>, k: nat)
    requires ZigZagging(fs, kept, newFaces, k) && k < |kept| && |kept[k].vertices| >= LongMax
    ensures FaceSet(kept) && multiset(kept) <= multiset(fs)
    ensures exists f :: f in kept && |f.vertices| >= LongMax
  {
    assert kept[k] in kept;
  }

  /** The walk ran to the end: every face left is small and the others were cut. */
  lemma ZigZagFinished(fs: seq<FaceValue>, kept: seq<FaceValue>, newFaces: seq<FaceValue>)
    requires ZigZagging(fs, kept, newFaces, |kept|)
    ensures FaceSet(kept) && multiset(kept) <= multiset(fs)
    ensures forall f :: f in fs ==> |f.vertices| < LongMax
    ensures Sweep(fs, kept, |kept|, IsSmall)
    ensures FaceSet(newFaces) && AllSmall(newFaces)
    ensures ZigZagFrom(newFaces, fs) && ZigZagDone(newFaces, fs, kept)
  {
    forall f | f in fs
      ensures |f.vertices| < LongMax
    {
      if f in kept {
        var t :| 0 <= t < |kept| && kept[t] == f;
      }
    }
  }

  /** Dropping faces keeps them owned and usable. */
  lemma FaceSetKeepsOwned(fs: seq<FaceValue>, sub: seq<FaceValue>, m: object, sizes: Sizes)
    requires multiset(sub) <= multiset(fs) && Owned(fs, m) && AllUsable(fs, sizes)
    ensures Owned(sub, m) && AllUsable(sub, sizes)
  {
    forall k | 0 <= k < |sub|
      ensures sub[k].owner == Some(m) && Usable(sub[k], sizes)
    {
      assert sub[k] in multiset(sub);
    }
  }

  /** The loop of convexify_faces followed by faces_.merge(new_faces). */
  method ConvexifyAll(fs: seq<FaceValue>, rule: SideRule, side: SideTest, ghost m: object, ghost sizes: Sizes)
    returns (merged: seq<FaceValue>)
    requires FaceSet(fs) && Owned(fs, m) && AllUsable(fs, sizes)
    ensures FaceSet(merged) && Owned(merged, m) && AllUsable(merged, sizes)
    ensures ConvexPieces(merged, fs)
  {
    var kept, newFaces := CutNonTriangles(fs, rule, side);
    SetMergeKeepsFaceSet(kept, newFaces);
    SetMergeContents(kept, newFaces);
    merged := SetMerge(kept, newFaces);
    MergedPieces(fs, kept, newFaces, merged, m, sizes);
  }

  /** What the merge at the end of triangulate leaves. */
  lemma MergedTriangles(convex: seq<FaceValue>, kept: seq<FaceValue>, newFaces: seq<FaceValue>, merged: seq<FaceValue>,
                        m: object, sizes: Sizes)
    requires Sweep(convex, kept, |kept|, IsSmall) && AllSmall(newFaces)
    requires ZigZagFrom(newFaces, convex) && ZigZagDone(newFaces, convex, kept)
    requires Owned(convex, m) && AllUsable(convex, sizes)
    requires multiset(kept) <= multiset(merged) <= multiset(kept) + multiset(newFaces)
    requires forall k :: 0 <= k < |newFaces| ==> HasEquivalent(merged, newFaces[k])
    ensures ZigZagPieces(merged, convex)
    ensures Owned(merged, m) && AllUsable(merged, sizes) && AllSmall(merged)
  {
    MergedFrom(convex, kept, newFaces, merged, m, sizes);
    MergedKeeps(convex, kept, merged);
    MergedHas(convex, kept, newFaces, merged);
  }

  /** Every merged face is a kept small face or a zig-zag triangle, so it is small, owned and usable. */
  lemma MergedFrom(convex: seq<FaceValue>, kept: seq<FaceValue>, newFaces: seq<FaceValue>, merged: seq<FaceValue>,
                   m: object, sizes: Sizes)
    requires Sweep(convex, kept, |kept|, IsSmall) && AllSmall(newFaces) && ZigZagFrom(newFaces, convex)
    requires Owned(convex, m) && AllUsable(convex, sizes)
    requires multiset(merged) <= multiset(kept) + multiset(newFaces)
    ensures forall g :: g in merged ==>
      (g in convex && IsSmall(g))
      || exists f, t :: f in convex && Parallel(f) && |f.vertices| > 3 && 0 <= t < |f.vertices| - 2
           && g == ZigZagFace(f, t)
    ensures Owned(merged, m) && AllUsable(merged, sizes) && AllSmall(merged)
  {
    forall g | g in merged
      ensures IsSmall(g) && g.owner == Some(m) && Usable(g, sizes)
      ensures (g in convex && IsSmall(g))
        || exists f, t :: f in convex && Parallel(f) && |f.vertices| > 3 && 0 <= t < |f.vertices| - 2
             && g == ZigZagFace(f, t)
    {
      assert g in multiset(merged);
      if g in kept {
        assert g in multiset(kept);
        var t :| 0 <= t < |kept| && kept[t] == g;
        assert g in multiset(convex);
      } else {
        assert g in newFaces;
        var j :| 0 <= j < |newFaces| && newFaces[j] == g;
        var f, t :| f in convex && Parallel(f) && |f.vertices| > 3 && 0 <= t < |f.vertices| - 2 && g == ZigZagFace(f, t);
        DescendsUsable(g, f, sizes);
      }
    }
    forall k | 0 <= k < |merged|
      ensures IsSmall(merged[k]) && merged[k].owner == Some(m) && Usable(merged[k], sizes)
    {
      assert merged[k] in merged;
    }
  }

  /** The small faces survive the merge. */
  lemma MergedKeeps(convex: seq<FaceValue>, kept: seq<FaceValue>, merged: seq<FaceValue>)
    requires Sweep(convex, kept, |kept|, IsSmall) && multiset(kept) <= multiset(merged)
    ensures forall f :: f in convex && IsSmall(f) ==> f in merged
  {
    forall f | f in convex && IsSmall(f)
      ensures f in merged
    {
      assert f in kept;
      assert f in multiset(kept);
    }
  }

  /** Each zig-zag triangle of a cut face has its vertex set among the merged faces. */
  lemma MergedHas(convex: seq<FaceValue>, kept: seq<FaceValue>, newFaces: seq<FaceValue>, merged: seq<FaceValue>)
    requires Sweep(convex, kept, |kept|, IsSmall) && AllSmall(newFaces) && AllSmall(merged)
    requires ZigZagDone(newFaces, convex, kept)
    requires forall k :: 0 <= k < |newFaces| ==> HasEquivalent(merged, newFaces[k])
    ensures AllTrianglesIn(merged, convex)
  {
    forall f, t | f in convex && Parallel(f) && |f.vertices| > 3 && 0 <= t < |f.vertices| - 2
      ensures exists h :: h in merged && ElemSet(h.vertices) == ElemSet(ZigZagFace(f, t).vertices)
    {
      forall i | 0 <= i < |kept|
        ensures kept[i] != f
      {
      }
      var g :| g in newFaces && ElemSet(g.vertices) == ElemSet(ZigZagFace(f, t).vertices);
      var j :| 0 <= j < |newFaces| && newFaces[j] == g;
      var i :| 0 <= i < |merged| && Equivalent(merged[i].vertices, g.vertices);
      assert IsSmall(g);
      SmallEquivalent(merged[i].vertices, g.vertices);
      assert merged[i] in merged;
    }
    assert forall f, t :: f in convex && Parallel(f) && |f.vertices| > 3 && 0 <= t < |f.vertices| - 2 ==>
      exists h :: h in merged && ElemSet(h.vertices) == ElemSet(ZigZagFace(f, t).vertices);
  }

  /** The faces after triangulation keep the model's invariant, now triangulated. */
  lemma MergedInvariant(convex: seq<FaceValue>, kept: seq<FaceValue>, newFaces: seq<FaceValue>, m: object, sizes: Sizes)
    requires Invariant(convex, false, true, sizes, m)
    requires Sweep(convex, kept, |kept|, IsSmall) && FaceSet(kept) && FaceSet(newFaces) && AllSmall(newFaces)
    requires ZigZagFrom(newFaces, convex) && ZigZagDone(newFaces, convex, kept)
    ensures Invariant(SetMerge(kept, newFaces), true, true, sizes, m)
    ensures ZigZagPieces(SetMerge(kept, newFaces), convex)
  {
    SetMergeKeepsFaceSet(kept, newFaces);
    SetMergeContents(kept, newFaces);
    MergedTriangles(convex, kept, newFaces, SetMerge(kept, newFaces), m, sizes);
  }

  /** Validated faces give check_connectivity indices in range, and a vertex when there is a face. */
  lemma UsableInRange(fs: seq<FaceValue>, sizes: Sizes)
    requires AllUsable(fs, sizes)
    ensures AllInRange(VertexLists(fs), sizes.vertices) && Defined(VertexLists(fs), sizes.vertices)
    ensures |fs| > 0 ==> sizes.vertices > 0
  {
    forall k, j | 0 <= k < |fs| && 0 <= j < |fs[k].vertices|
      ensures VertexLists(fs)[k][j] < sizes.vertices
    {
      assert fs[k].vertices[j] in fs[k].vertices;
    }
    if |fs| > 0 {
      assert fs[0].vertices[0] in fs[0].vertices;
    }
  }

  // ---------------------------------------------------------------------
  // The Model object

  class Model {
    var vertices: seq<FVec4>
    var textureVertices: seq<FVec3>
    var vertexNormals: seq<FVec3>
    var faces: seq<FaceValue>
    var isConnected: bool
    var isConvex: bool
    var isTriangulated: bool
    var isValidated: bool
    var isWatertight: bool
    var recalcConnectivity: bool
    var recalcConvexity: bool
    var recalcWaterTightness: bool

    function ListSizes(): Sizes
      reads this
    {
      Sizes(|vertices|, |textureVertices|, |vertexNormals|)
    }

    function Flags(): Cache
      reads this
    {
      Cache(isConnected, isConvex, isTriangulated, isValidated, isWatertight,
            recalcConnectivity, recalcConvexity, recalcWaterTightness)
    }

    /**
     * Every face belongs to this Model, the faces form a face set,
     * is_triangulated_ means no face has more than three vertices, and
     * is_validated_ means every face is usable.
     */
    ghost predicate Valid()
      reads this
    {
      Invariant(faces, isTriangulated, isValidated, ListSizes(), this)
    }

    /** Model::create(): no vertices, no faces, every flag true. */
    constructor ()
      ensures Valid()
      ensures vertices == [] && textureVertices == [] && vertexNormals == [] && faces == []
      ensures Flags() == Cache(true, true, true, true, true, true, true, true)
    {
      vertices, textureVertices, vertexNormals, faces := [], [], [], [];
      isConnected, isConvex, isTriangulated, isValidated, isWatertight := true, true, true, true, true;
      recalcConnectivity, recalcConvexity, recalcWaterTightness := true, true, true;
    }

    /**
     * Model::create(other): a copy of every list and flag whose faces
     * belong to the new Model. The original is not modified.
     */
    constructor Copy(other: Model)
      requires other.Valid()
      ensures Valid()
      ensures vertices == other.vertices && textureVertices == other.textureVertices
      ensures vertexNormals == other.vertexNormals && Flags() == other.Flags()
      ensures |faces| == |other.faces|
      ensures forall k :: 0 <= k < |faces| ==> faces[k] == other.faces[k].(owner := Some(this as object))
    {
      vertices, textureVertices, vertexNormals := other.vertices, other.textureVertices, other.vertexNormals;
      isConnected, isConvex, isTriangulated := other.isConnected, other.isConvex, other.isTriangulated;
      isValidated, isWatertight := other.isValidated, other.isWatertight;
      recalcConnectivity, recalcConvexity := other.recalcConnectivity, other.recalcConvexity;
      recalcWaterTightness := other.recalcWaterTightness;
      faces := other.faces;
      new;
      var fs := other.faces;
      var k := 0;
      var copied: seq<FaceValue> := [];
      while k < |fs|
        invariant k <= |fs| && |copied| == k
        invariant forall j :: 0 <= j < k ==> copied[j] == fs[j].(owner := Some(this as object))
      {
        copied := copied + [fs[k].(owner := Some(this as object))];
        k := k + 1;
      }
      faces := copied;
    }

    /** add_vertex: appends, and the properties must be recalculated. */
    method AddVertex(v: FVec4)
      requires Valid()
      modifies this
      ensures Valid()
      ensures vertices == old(vertices) + [v] && faces == old(faces)
      ensures textureVertices == old(textureVertices) && vertexNormals == old(vertexNormals)
      ensures Flags() == NeedsRecalc(old(Flags()))
    {
      if isValidated {
        UsableGrows(faces, ListSizes(), Sizes(|vertices| + 1, |textureVertices|, |vertexNormals|));
      }
      vertices := vertices + [v];
      recalcConnectivity, recalcConvexity, recalcWaterTightness := true, true, true;
    }

    /** add_texture_vertex: appends and touches no flag. */
    method AddTextureVertex(tv: FVec3)
      requires Valid()
      modifies this
      ensures Valid()
      ensures textureVertices == old(textureVertices) + [tv] && faces == old(faces)
      ensures vertices == old(vertices) && vertexNormals == old(vertexNormals)
      ensures Flags() == old(Flags())
    {
      if isValidated {
        UsableGrows(faces, ListSizes(), Sizes(|vertices|, |textureVertices| + 1, |vertexNormals|));
      }
      textureVertices := textureVertices + [tv];
    }

    /** add_vertex_normal: appends and touches no flag. */
    method AddVertexNormal(vn: FVec3)
      requires Valid()
      modifies this
      ensures Valid()
      ensures vertexNormals == old(vertexNormals) + [vn] && faces == old(faces)
      ensures vertices == old(vertices) && textureVertices == old(textureVertices)
      ensures Flags() == old(Flags())
    {
      if isValidated {
        UsableGrows(faces, ListSizes(), Sizes(|vertices|, |textureVertices|, |vertexNormals| + 1));
      }
      vertexNormals := vertexNormals + [vn];
    }

    /**
     * add_face: a face whose Model is gone, or that belongs to another
     * Model, is refused and nothing changes. Otherwise it is inserted; a
     * face of more than three vertices clears is_triangulated_, and the
     * model must be validated and its properties recalculated.
     */
    method AddFace(f: Face) returns (r: Outcome<FaceError>)
      requires Valid()
      modifies this
      ensures Valid()
      ensures vertices == old(vertices) && textureVertices == old(textureVertices)
      ensures vertexNormals == old(vertexNormals)
      ensures f.owner.None? ==> r == Fail(ModelError(Expired)) && faces == old(faces) && Flags() == old(Flags())
      ensures f.owner.Some? && f.owner != Some(this as object) ==>
        r == Fail(ModelError(NotAssociated)) && faces == old(faces) && Flags() == old(Flags())
      ensures f.owner == Some(this as object) ==>
        r == Pass && faces == SetInsert(old(faces), f.Value()) && HasEquivalent(faces, f.Value())
        && Flags() == NeedsRecalc(old(Flags())).(isValidated := false,
                        isTriangulated := old(isTriangulated) && |f.vertices| <= 3)
    {
      if f.owner.None? {
        return Fail(ModelError(Expired));
      }
      if f.owner != Some(this as object) {
        return Fail(ModelError(NotAssociated));
      }
      InsertFace(f.Value());
      r := Pass;
    }

    /** The insertion and flag updates of add_face, for a face of this Model. */
    method InsertFace(fv: FaceValue)
      requires Valid() && fv.owner == Some(this as object)
      modifies this`faces, this`isTriangulated, this`isValidated
      modifies this`recalcConnectivity, this`recalcConvexity, this`recalcWaterTightness
      ensures Valid()
      ensures faces == SetInsert(old(faces), fv) && HasEquivalent(faces, fv)
      ensures isTriangulated == (old(isTriangulated) && |fv.vertices| <= 3) && !isValidated
      ensures recalcConnectivity && recalcConvexity && recalcWaterTightness
    {
      InsertOwned(faces, fv, isTriangulated, isValidated, ListSizes(), this);
      faces, isTriangulated, isValidated := SetInsert(faces, fv), isTriangulated && |fv.vertices| <= 3, false;
      recalcConnectivity, recalcConvexity, recalcWaterTightness := true, true, true;
    }

    /**
     * validate: nothing to do when is_validated_. Otherwise the first
     * face that fails Face::validate makes it fail with that face's
     * vertex list before the message; when every face passes,
     * is_validated_ becomes true. Nothing else changes.
     */
    method Validate() returns (r: Outcome<FaceError>)
      requires Valid()
      modifies this`isValidated
      ensures Valid()
      ensures vertices == old(vertices) && textureVertices == old(textureVertices)
      ensures vertexNormals == old(vertexNormals) && faces == old(faces)
      ensures old(isValidated) ==> r == Pass
      ensures !old(isValidated) ==>
        (r.Pass? <==> forall k :: 0 <= k < |faces| ==> ValidateFace(faces[k], ListSizes()).Pass?)
      ensures r.Fail? ==> RejectedWith(faces, ListSizes(), r.error)
      ensures Flags() == old(Flags()).(isValidated := old(isValidated) || r.Pass?)
    {
      if isValidated {
        return Pass;
      }
      var k := FirstInvalidFace(faces, ListSizes());
      if k < |faces| {
        assert FirstInvalid(faces, ListSizes(), k);
        return Fail(ModelError(ValidationMessage(faces[k], ListSizes())));
      }
      isValidated := true;
      r := Pass;
    }

    /**
     * convexify_faces: nothing to do when is_triangulated_; a failing
     * validate is passed on with nothing changed. Otherwise every face that
     * is not a triangle is taken out of the set and cut into convex
     * pieces, and the pieces of all faces are merged back in.
     */
    method ConvexifyFaces(rule: SideRule, side: SideTest) returns (r: Outcome<FaceError>)
      requires Valid()
      modifies this
      ensures Valid()
      ensures vertices == old(vertices) && textureVertices == old(textureVertices)
      ensures vertexNormals == old(vertexNormals)
      ensures old(isTriangulated) ==> r == Pass && faces == old(faces) && Flags() == old(Flags())
      ensures old(isValidated) ==> r.Pass?
      ensures r.Fail? ==> faces == old(faces) && Flags() == old(Flags())
      ensures !old(isTriangulated) && r.Pass? ==>
        isValidated && ConvexPieces(faces, old(faces))
        && Flags() == old(Flags()).(isValidated := true)
    {
      if isTriangulated {
        return Pass;
      }
      if !isValidated {
        r := Validate();
        if r.Fail? {
          return;
        }
      }
      r := ConvexifyValidated(rule, side);
    }

    /** The part of convexify_faces after a successful validate. */
    method ConvexifyValidated(rule: SideRule, side: SideTest) returns (r: Outcome<FaceError>)
      requires Valid() && isValidated && !isTriangulated
      modifies this
      ensures Valid() && r == Pass
      ensures vertices == old(vertices) && textureVertices == old(textureVertices)
      ensures vertexNormals == old(vertexNormals)
      ensures ConvexPieces(faces, old(faces)) && Flags() == old(Flags())
    {
      faces := ConvexifyAll(faces, rule, side, this, ListSizes());
      r := Pass;
    }

    /**
     * triangulate: nothing to do when is_triangulated_; a failing validate
     * is passed on with nothing changed. Otherwise the faces are
     * convexified, every face of more than three vertices is replaced by
     * its zig-zag triangles, and is_triangulated_ becomes true. A face of
     * LONG_MAX vertices or more stops it with an error, after the faces
     * before it have been erased.
     */
    method Triangulate(rule: SideRule, side: SideTest) returns (r: Outcome<FaceError>, ghost convex: seq<FaceValue>)
      requires Valid()
      modifies this
      ensures Valid()
      ensures vertices == old(vertices) && textureVertices == old(textureVertices)
      ensures vertexNormals == old(vertexNormals)
      ensures old(isTriangulated) ==> r == Pass && faces == old(faces) && Flags() == old(Flags())
      ensures r.Fail? ==>
        (!old(isValidated) && faces == old(faces) && Flags() == old(Flags()))
        || (r == Fail(ModelError(FaceTooLarge)) && (exists f :: f in faces && |f.vertices| >= LongMax)
            && Flags() == old(Flags()).(isValidated := true))
      ensures !old(isTriangulated) && r.Pass? ==>
        ConvexPieces(convex, old(faces)) && ZigZagPieces(faces, convex)
        && Flags() == old(Flags()).(isValidated := true, isTriangulated := true)
    {
      convex := faces;
      if isTriangulated {
        return Pass, convex;
      }
      if !isValidated {
        r := Validate();
        if r.Fail? {
          return;
        }
      }
      r := ConvexifyValidated(rule, side);
      convex := faces;
      r := ZigZagFaces();
    }

    /** The part of triangulate after convexify_faces: the zig-zag loop and the merge. */
    method ZigZagFaces() returns (r: Outcome<FaceError>)
      requires Valid() && isValidated && !isTriangulated
      modifies this
      ensures Valid()
      ensures vertices == old(vertices) && textureVertices == old(textureVertices)
      ensures vertexNormals == old(vertexNormals)
      ensures r.Fail? ==> r == Fail(ModelError(FaceTooLarge)) && Flags() == old(Flags())
      ensures r.Fail? ==> exists f :: f in faces && |f.vertices| >= LongMax
      ensures r.Pass? ==> ZigZagPieces(faces, old(faces)) && Flags() == old(Flags()).(isTriangulated := true)
    {
      var kept, newFaces, tooLarge := ZigZagAll(faces);
      if tooLarge {
        KeepFaces(kept);
        return Fail(ModelError(FaceTooLarge));
      }
      MergeTriangles(kept, newFaces);
      r := Pass;
    }

    /** The faces left when the zig-zag loop stops early: faces_ without the faces erased so far. */
    method KeepFaces(kept: seq<FaceValue>)
      requires Valid() && isValidated && !isTriangulated && FaceSet(kept) && multiset(kept) <= multiset(faces)
      modifies this
      ensures Valid() && faces == kept
      ensures vertices == old(vertices) && textureVertices == old(textureVertices)
      ensures vertexNormals == old(vertexNormals) && Flags() == old(Flags())
    {
      FaceSetKeepsOwned(faces, kept, this, ListSizes());
      faces := kept;
    }

    /** faces_.merge(new_faces) and is_triangulated_ = true at the end of triangulate. */
    method MergeTriangles(kept: seq<FaceValue>, newFaces: seq<FaceValue>)
      requires Valid() && isValidated && !isTriangulated
      requires Sweep(faces, kept, |kept|, IsSmall) && FaceSet(kept) && FaceSet(newFaces) && AllSmall(newFaces)
      requires ZigZagFrom(newFaces, faces) && ZigZagDone(newFaces, faces, kept)
      modifies this`faces, this`isTriangulated
      ensures Valid() && ZigZagPieces(faces, old(faces))
      ensures vertices == old(vertices) && textureVertices == old(textureVertices)
      ensures vertexNormals == old(vertexNormals) && Flags() == old(Flags()).(isTriangulated := true)
    {
      MergedInvariant(faces, kept, newFaces, this, ListSizes());
      faces, isTriangulated := SetMerge(kept, newFaces), true;
    }

    /**
     * is_connected: validate first (its error is passed on, nothing
     * changed); then check_connectivity over the faces and the vertex
     * count, only while recalc_connectivity_ is set, caching the answer.
     */
    method IsConnected(W: nat) returns (r: Result<bool, FaceError>)
      requires Valid() && W > 0
      modifies this
      ensures Valid()
      ensures vertices == old(vertices) && textureVertices == old(textureVertices)
      ensures vertexNormals == old(vertexNormals) && faces == old(faces)
      ensures r.Failure? ==> !old(isValidated) && Flags() == old(Flags())
      ensures r.Failure? ==> RejectedWith(faces, ListSizes(), r.error)
      ensures r.Success? ==> isValidated && Flags() == old(Flags()).(isValidated := true, isConnected := r.value, recalcConnectivity := false)
      ensures r.Success? ==> r.value == if old(recalcConnectivity) then ConnectivityOf(faces, |vertices|, W) else old(isConnected)
    {
      var v := Validate();
      if v.Fail? {
        return Failure(v.error);
      }
      if recalcConnectivity {
        RecalcConnectivity(W);
      }
      r := Success(isConnected);
    }

    /** The recalculation inside is_connected, on validated faces. */
    method RecalcConnectivity(W: nat)
      requires Valid() && isValidated && W > 0
      modifies this`isConnected, this`recalcConnectivity
      ensures Valid()
      ensures isConnected == ConnectivityOf(faces, |vertices|, W) && !recalcConnectivity
    {
      UsableInRange(faces, ListSizes());
      var c := CheckConnectivity(VertexLists(faces), |vertices|, W);
      isConnected, recalcConnectivity := c.value, false;
    }

    /**
     * is_convex: validate first; then, only while recalc_convexity_ is
     * set, the model is convex when it has no concave vertex. Whether it
     * has one is a floating-point computation and is given.
     */
    method IsConvex(noConcave: bool) returns (r: Result<bool, FaceError>)
      requires Valid()
      modifies this
      ensures Valid()
      ensures vertices == old(vertices) && textureVertices == old(textureVertices)
      ensures vertexNormals == old(vertexNormals) && faces == old(faces)
      ensures r.Failure? ==> !old(isValidated) && Flags() == old(Flags())
      ensures r.Failure? ==> RejectedWith(faces, ListSizes(), r.error)
      ensures r.Success? ==> isValidated && Flags() == old(Flags()).(isValidated := true, isConvex := r.value, recalcConvexity := false)
      ensures r.Success? ==> r.value == if old(recalcConvexity) then noConcave else old(isConvex)
    {
      var v := Validate();
      if v.Fail? {
        return Failure(v.error);
      }
      if recalcConvexity {
        RecalcConvexity(noConcave);
      }
      r := Success(isConvex);
    }

    /**
     * is_watertight(msg): validate first; then, only while
     * recalc_water_tightness_ is set, check_water_tightness decides and
     * writes its message. A cached answer writes no message.
     */
    method IsWatertight(W: nat, selfIntersection: Option<seq<nat>>) returns (r: Result<bool, FaceError>, msg: Option<string>)
      requires Valid() && W > 0
      requires isValidated ==> forall k :: 0 <= k < |faces| ==> !Doubled(faces[k].vertices)
      modifies this
      ensures Valid()
      ensures vertices == old(vertices) && textureVertices == old(textureVertices)
      ensures vertexNormals == old(vertexNormals) && faces == old(faces)
      ensures r.Failure? ==> !old(isValidated) && Flags() == old(Flags()) && msg.None?
      ensures r.Failure? ==> RejectedWith(faces, ListSizes(), r.error)
      ensures r.Success? ==> isValidated && Flags() == old(Flags()).(isValidated := true, isWatertight := r.value,
                                                                 recalcWaterTightness := false)
      ensures r.Success? && old(recalcWaterTightness) ==>
        Verdict(faces, |vertices|, W, Some(this as object), selfIntersection, r.value, msg)
      ensures r.Success? && !old(recalcWaterTightness) ==> r.value == old(isWatertight) && msg.None?
    {
      msg := None;
      ghost var wasValidated := isValidated;
      var v := Validate();
      if v.Fail? {
        return Failure(v.error), None;
      }
      if !wasValidated {
        PassedNotDoubled(faces, ListSizes());
      }
      if recalcWaterTightness {
        msg := RecalcWaterTightness(W, selfIntersection);
      }
      r := Success(isWatertight);
    }

    /** The recalculation inside is_convex. */
    method RecalcConvexity(noConcave: bool)
      requires Valid()
      modifies this`isConvex, this`recalcConvexity
      ensures Valid()
      ensures isConvex == noConcave && !recalcConvexity
    {
      isConvex, recalcConvexity := noConcave, false;
    }

    /** The recalculation inside is_watertight: check_water_tightness and its message. */
    method RecalcWaterTightness(W: nat, selfIntersection: Option<seq<nat>>) returns (msg: Option<string>)
      requires Valid() && W > 0 && forall k :: 0 <= k < |faces| ==> !Doubled(faces[k].vertices)
      modifies this`isWatertight, this`recalcWaterTightness
      ensures Valid()
      ensures Verdict(faces, |vertices|, W, Some(this as object), selfIntersection, isWatertight, msg)
      ensures !recalcWaterTightness
    {
      var w;
      w, msg := CheckWaterTightness(faces, |vertices|, W, Some(this as object), selfIntersection);
      isWatertight, recalcWaterTightness := w, false;
    }
  }
}
