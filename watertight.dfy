// Steps 1 and 2 of Model::check_water_tightness (src/model/model.cpp,
// src/model.cpp). Step 1 counts every cyclic face edge as an unordered
// (min, max) pair; every edge must bound exactly two faces. Step 2 looks at
// each vertex's link: the faces incident to it, with the vertex removed and
// the remaining vertices renumbered densely in first-seen order, must be
// connected (check_connectivity). Step 3, the self-intersection test, is
// floating point and enters as a parameter.
module Watertight {
  import opened Wrappers
  import Text
  import opened FaceOrder
  import opened Faces
  import opened Connectivity
  import opened Bitsets

  /** std::array<size_t, 2>{min, max}. */
  datatype Edge = Edge(lo: nat, hi: nat)

  /** The edge from position i to the next position (cyclically), smaller index first. */
  function CyclicEdge(v: seq<nat>, i: nat): (e: Edge)
    requires i < |v|
    ensures e.lo <= e.hi
  {
    var a, b := v[i], v[(i + 1) % |v|];
    if a > b then Edge(b, a) else Edge(a, b)
  }

  function FaceEdges(v: seq<nat>): (es: seq<Edge>)
    ensures |es| == |v|
  {
    seq(|v|, i requires 0 <= i < |v| => CyclicEdge(v, i))
  }

  /** Every face's edges, faces in iteration order. */
  function AllEdges(faces: seq<FaceValue>): seq<Edge>
  {
    if |faces| == 0 then [] else AllEdges(faces[..|faces| - 1]) + FaceEdges(faces[|faces| - 1].vertices)
  }

  /** How many faces' edge lists contain e, with repetition. */
  function Occ(faces: seq<FaceValue>, e: Edge): nat
  {
    multiset(AllEdges(faces))[e]
  }

  /** std::array's operator<, the order std::map iterates in. */
  predicate EdgeLess(a: Edge, b: Edge)
  {
    a.lo < b.lo || (a.lo == b.lo && a.hi < b.hi)
  }

  /** An edge that occurs, but not exactly twice. */
  ghost predicate Bad(faces: seq<FaceValue>, e: Edge)
  {
    Occ(faces, e) != 0 && Occ(faces, e) != 2
  }

  ghost predicate EdgesOk(faces: seq<FaceValue>)
  {
    forall e :: !Bad(faces, e)
  }

  ghost predicate IsFirstBadEdge(faces: seq<FaceValue>, e: Edge)
  {
    Bad(faces, e) && forall e' :: Bad(faces, e') ==> e' == e || EdgeLess(e, e')
  }

  function EdgeMessage(e: Edge, o: nat): string
  {
    "(Edge:" + Text.NatToString(e.lo) + ":" + Text.NatToString(e.hi) + ") "
      + (if o == 1 then "Boundary edge" else "Non-manifold edge")
  }

  function VertexMessage(i: nat): string
  {
    "(Vertex:" + Text.NatToString(i) + ") Non-manifold vertex"
  }

  function Colons(vs: seq<nat>): string
  {
    if |vs| == 0 then "" else ":" + Text.NatToString(vs[0]) + Colons(vs[1..])
  }

  /** `"(Face" << ":" << v ... << ")"`, the prefix of face-related messages. */
  function FaceTag(vs: seq<nat>): string
  {
    "(Face" + Colons(vs) + ")"
  }

  // ---------------------------------------------------------------------
  // Step 1: edge occurrences

  /** occ is the map form of the multiset M: present keys with their counts. */
  ghost predicate Counts(occ: map<Edge, nat>, M: multiset<Edge>)
  {
    forall e :: (e in occ <==> M[e] > 0) && (e in occ ==> occ[e] == M[e])
  }

  /** The inner loop: `++edge_occurrences[edge]` for each edge of one face. */
  method CountEdges(occ: map<Edge, nat>, es: seq<Edge>, ghost M: multiset<Edge>) returns (occ': map<Edge, nat>)
    requires Counts(occ, M)
    ensures Counts(occ', M + multiset(es))
  {
    occ' := occ;
    var i := 0;
    while i < |es|
      invariant 0 <= i <= |es|
      invariant Counts(occ', M + multiset(es[..i]))
    {
      var e := es[i];
      assert es[..i + 1] == es[..i] + [e];
      occ' := occ'[e := (if e in occ' then occ'[e] else 0) + 1];
      i := i + 1;
    }
    assert es[..i] == es;
  }

  /** Step 1's counting: the map holds each edge's occurrence count. */
  method EdgeOccurrences(faces: seq<FaceValue>) returns (occ: map<Edge, nat>)
    ensures forall e :: e in occ <==> Occ(faces, e) > 0
    ensures forall e :: e in occ ==> occ[e] == Occ(faces, e)
  {
    occ := map[];
    var k := 0;
    while k < |faces|
      invariant 0 <= k <= |faces|
      invariant Counts(occ, multiset(AllEdges(faces[..k])))
    {
      assert faces[..k + 1][..k] == faces[..k];
      occ := CountEdges(occ, FaceEdges(faces[k].vertices), multiset(AllEdges(faces[..k])));
      k := k + 1;
    }
    assert faces[..k] == faces;
  }

  /**
   * The scan of edge_occurrences in ascending key order, stopping at the
   * first count other than 2: the least such edge.
   */
  method FirstBadEdge(occ: map<Edge, nat>) returns (r: Option<Edge>)
    ensures r.None? ==> forall e :: e in occ ==> occ[e] == 2
    ensures r.Some? ==> (r.value in occ && occ[r.value] != 2
      && forall e :: e in occ && occ[e] != 2 ==> e == r.value || EdgeLess(r.value, e))
  {
    r := None;
    var rest := occ.Keys;
    while rest != {}
      invariant rest <= occ.Keys
      invariant r.None? ==> forall e :: e in occ && e !in rest ==> occ[e] == 2
      invariant r.Some? ==> (r.value in occ && occ[r.value] != 2
        && forall e :: e in occ && e !in rest && occ[e] != 2 ==> e == r.value || EdgeLess(r.value, e))
      decreases |rest|
    {
      var e :| e in rest;
      if occ[e] != 2 && (r.None? || EdgeLess(e, r.value)) {
        r := Some(e);
      }
      rest := rest - {e};
    }
  }

  lemma {:induction false} CountConstant(es: seq<Edge>, e: Edge)
    requires forall j :: 0 <= j < |es| ==> es[j] == e
    ensures multiset(es)[e] == |es|
  {
    if |es| > 0 {
      CountConstant(es[..|es| - 1], e);
      assert es == es[..|es| - 1] + [es[|es| - 1]];
    }
  }

  lemma {:induction false} FaceEdgesCounted(faces: seq<FaceValue>, k: nat, e: Edge)
    requires k < |faces|
    ensures multiset(FaceEdges(faces[k].vertices))[e] <= Occ(faces, e)
    decreases |faces|
  {
    var n := |faces|;
    if k < n - 1 {
      FaceEdgesCounted(faces[..n - 1], k, e);
      assert faces[..n - 1][k] == faces[k];
    }
  }

  /** A face of s >= 3 copies of one vertex c gives edge (c, c) s times. */
  lemma ConstantFaceIsBad(faces: seq<FaceValue>, k: nat, c: nat)
    requires k < |faces| && |faces[k].vertices| >= 3
    ensures (forall j :: 0 <= j < |faces[k].vertices| ==> faces[k].vertices[j] == c) ==> Bad(faces, Edge(c, c))
  {
    if forall j :: 0 <= j < |faces[k].vertices| ==> faces[k].vertices[j] == c {
      var es := FaceEdges(faces[k].vertices);
      CountConstant(es, Edge(c, c));
      FaceEdgesCounted(faces, k, Edge(c, c));
    }
  }

  /**
   * A face of one vertex, or of two copies of one vertex: step 1 can let
   * it through (its edge (c, c) may reach a count of exactly 2).
   */
  predicate Doubled(v: seq<nat>)
  {
    |v| == 1 || (|v| == 2 && v[0] == v[1])
  }

  /** When step 1 passes, a face holding c (other than a doubled vertex) holds another vertex too. */
  lemma EdgesOkNoConstantFace(faces: seq<FaceValue>, k: nat, c: nat)
    requires EdgesOk(faces) && k < |faces| && c in faces[k].vertices && !Doubled(faces[k].vertices)
    ensures exists j :: 0 <= j < |faces[k].vertices| && faces[k].vertices[j] != c
  {
    var v := faces[k].vertices;
    if |v| < 3 {
      if v[0] != c {
        assert v[0] != c;
      } else {
        assert v[1] != c;
      }
    } else {
      ConstantFaceIsBad(faces, k, c);
      assert !Bad(faces, Edge(c, c));
    }
  }

  // ---------------------------------------------------------------------
  // Step 2: the vertex link

  /** The face's vertices other than i, in order (`selected_verts`). */
  function Others(v: seq<nat>, i: nat): (r: seq<nat>)
    ensures ElemSet(r) == ElemSet(v) - {i}
  {
    if |v| == 0 then []
    else
      var last := v[|v| - 1];
      assert ElemSet(v) == ElemSet(v[..|v| - 1]) + {last} by {
        assert v == v[..|v| - 1] + [last];
      }
      var r := Others(v[..|v| - 1], i) + (if last == i then [] else [last]);
      assert ElemSet(r) == ElemSet(Others(v[..|v| - 1], i)) + (if last == i then {} else {last});
      r
  }

  /** The inner loop over `f.vertices()`: other vertices, and whether i was among them. */
  method SelectOthers(v: seq<nat>, i: nat) returns (selected: seq<nat>, incident: bool)
    ensures incident == (i in v) && selected == Others(v, i)
  {
    selected, incident := [], false;
    var j := 0;
    while j < |v|
      invariant 0 <= j <= |v|
      invariant incident == (i in v[..j]) && selected == Others(v[..j], i)
    {
      assert v[..j + 1][..j] == v[..j];
      assert v[..j + 1] == v[..j] + [v[j]];
      if v[j] == i {
        incident := true;
      } else {
        selected := selected + [v[j]];
      }
      j := j + 1;
    }
    assert v[..j] == v;
  }

  /** `index_map` and `nverts`. */
  datatype Numbering = Numbering(index: map<nat, nat>, count: nat)

  /** `if (index_map.find(vi) == index_map.end()) index_map[vi] = nverts++;` for each vi of s. */
  function Assign(nb: Numbering, s: seq<nat>): Numbering
  {
    if |s| == 0 then nb
    else
      Next(Assign(nb, s[..|s| - 1]), s[|s| - 1])
  }

  /** The numbering is a bijection between its keys and 0 .. count-1. */
  ghost predicate Dense(nb: Numbering)
  {
    && (forall x :: x in nb.index ==> nb.index[x] < nb.count)
    && (forall x, y :: x in nb.index && y in nb.index && x != y ==> nb.index[x] != nb.index[y])
    && (forall j :: 0 <= j < nb.count ==> j in nb.index.Values)
  }

  /** Numbering a list keeps earlier numbers, adds exactly its new vertices, and stays dense. */
  lemma {:induction false} AssignDense(nb: Numbering, s: seq<nat>)
    requires Dense(nb)
    ensures var r := Assign(nb, s);
      Dense(r) && r.index.Keys == nb.index.Keys + ElemSet(s)
      && (forall x :: x in nb.index ==> r.index[x] == nb.index[x])
      && nb.count <= r.count
  {
    if |s| > 0 {
      var s' := s[..|s| - 1];
      var x := s[|s| - 1];
      AssignDense(nb, s');
      var p := Assign(nb, s');
      assert ElemSet(s) == ElemSet(s') + {x} by {
        assert s == s' + [x];
      }
      AssignOne(p, x);
      assert Assign(nb, s) == Next(p, x);
    }
  }

  /** The numbering after vertex x. */
  function Next(p: Numbering, x: nat): Numbering
  {
    if x in p.index then p else Numbering(p.index[x := p.count], p.count + 1)
  }

  /** Numbering one vertex keeps earlier numbers, adds x and stays dense. */
  lemma AssignOne(p: Numbering, x: nat)
    requires Dense(p)
    ensures Dense(Next(p, x)) && Next(p, x).index.Keys == p.index.Keys + {x}
    ensures forall y :: y in p.index ==> Next(p, x).index[y] == p.index[y]
    ensures p.count <= Next(p, x).count
  {
    if x !in p.index {
      var q := p.index[x := p.count];
      forall j | 0 <= j < p.count + 1
        ensures j in q.Values
      {
        if j < p.count {
          assert j in p.index.Values;
          var y :| y in p.index && p.index[y] == j;
          assert q[y] == j;
        } else {
          assert q[x] == j;
        }
      }
    }
  }

  /** A list renamed through the numbering (`vi = index_map[vi]`). */
  function Rename(m: map<nat, nat>, s: seq<nat>): (r: seq<nat>)
    requires ElemSet(s) <= m.Keys
    ensures |r| == |s|
  {
    seq(|s|, k requires 0 <= k < |s| => (assert s[k] in ElemSet(s); m[s[k]]))
  }

  /** The renumbering loop over `selected_verts`. */
  method Renumber(sel: seq<nat>, indexMap: map<nat, nat>, nverts: nat)
    returns (out: seq<nat>, indexMap': map<nat, nat>, nverts': nat)
    ensures Numbering(indexMap', nverts') == Assign(Numbering(indexMap, nverts), sel)
    ensures ElemSet(sel) <= indexMap'.Keys && out == Rename(indexMap', sel)
  {
    out, indexMap', nverts' := [], indexMap, nverts;
    var j := 0;
    while j < |sel|
      invariant 0 <= j <= |sel|
      invariant Numbering(indexMap', nverts') == Assign(Numbering(indexMap, nverts), sel[..j])
      invariant ElemSet(sel[..j]) <= indexMap'.Keys
      invariant |out| == j && forall t :: 0 <= t < j ==> out[t] == indexMap'[sel[t]]
    {
      var vi := sel[j];
      assert sel[..j + 1][..j] == sel[..j];
      assert ElemSet(sel[..j + 1]) == ElemSet(sel[..j]) + {vi} by {
        assert sel[..j + 1] == sel[..j] + [vi];
      }
      if vi !in indexMap' {
        indexMap' := indexMap'[vi := nverts'];
        nverts' := nverts' + 1;
      }
      out := out + [indexMap'[vi]];
      j := j + 1;
    }
    assert sel[..j] == sel;
  }

  /** Every vertex sharing a face with i, other than i. */
  ghost function Neighbours(faces: seq<FaceValue>, i: nat): set<nat>
  {
    if |faces| == 0 then {}
    else
      var f := faces[|faces| - 1];
      Neighbours(faces[..|faces| - 1], i) + (if i in f.vertices then ElemSet(f.vertices) - {i} else {})
  }

  /** index_map after all faces: the incident faces' other vertices, numbered in first-seen order. */
  function LinkNumbering(faces: seq<FaceValue>, i: nat): Numbering
  {
    if |faces| == 0 then Numbering(map[], 0)
    else
      var nb := LinkNumbering(faces[..|faces| - 1], i);
      var f := faces[|faces| - 1];
      if i in f.vertices then Assign(nb, Others(f.vertices, i)) else nb
  }

  lemma {:induction false} LinkNumberingDense(faces: seq<FaceValue>, i: nat)
    ensures Dense(LinkNumbering(faces, i)) && LinkNumbering(faces, i).index.Keys == Neighbours(faces, i)
  {
    if |faces| > 0 {
      var n := |faces|;
      LinkNumberingDense(faces[..n - 1], i);
      if i in faces[n - 1].vertices {
        AssignDense(LinkNumbering(faces[..n - 1], i), Others(faces[n - 1].vertices, i));
      }
    }
  }

  /** `Face{model, selected_verts}` after renumbering. */
  function LinkFace(f: FaceValue, i: nat, m: map<nat, nat>, owner: Option<object>): FaceValue
    requires ElemSet(f.vertices) - {i} <= m.Keys
  {
    FaceValue(owner, Rename(m, Others(f.vertices, i)), [], [], None)
  }

  /** `face_group`: the renamed incident faces, emplaced into a face set. */
  function LinkGroup(faces: seq<FaceValue>, i: nat, m: map<nat, nat>, owner: Option<object>): seq<FaceValue>
    requires Neighbours(faces, i) <= m.Keys
  {
    if |faces| == 0 then []
    else
      var f := faces[|faces| - 1];
      var g := LinkGroup(faces[..|faces| - 1], i, m, owner);
      if i in f.vertices then SetInsert(g, LinkFace(f, i, m, owner)) else g
  }

  /** A numbering that extends m renames the same faces in the same way. */
  lemma {:induction false} LinkGroupExtend(faces: seq<FaceValue>, i: nat, m: map<nat, nat>, m': map<nat, nat>, owner: Option<object>)
    requires Neighbours(faces, i) <= m.Keys && m.Keys <= m'.Keys
    requires forall x :: x in m ==> m'[x] == m[x]
    ensures LinkGroup(faces, i, m, owner) == LinkGroup(faces, i, m', owner)
  {
    if |faces| > 0 {
      var n := |faces|;
      LinkGroupExtend(faces[..n - 1], i, m, m', owner);
      var f := faces[n - 1];
      if i in f.vertices {
        assert Rename(m, Others(f.vertices, i)) == Rename(m', Others(f.vertices, i));
      }
    }
  }

  /** Every vertex of every face of g is in M. */
  ghost predicate VerticesIn(g: seq<FaceValue>, M: set<nat>)
  {
    forall k, j :: 0 <= k < |g| && 0 <= j < |g[k].vertices| ==> g[k].vertices[j] in M
  }

  /** The link's face group is a face set whose vertices are all numbered. */
  lemma {:induction false} LinkGroupShape(faces: seq<FaceValue>, i: nat, m: map<nat, nat>, owner: Option<object>)
    requires Neighbours(faces, i) <= m.Keys
    ensures FaceSet(LinkGroup(faces, i, m, owner)) && VerticesIn(LinkGroup(faces, i, m, owner), m.Values)
  {
    if |faces| > 0 {
      var n := |faces|;
      LinkGroupShape(faces[..n - 1], i, m, owner);
      var f := faces[n - 1];
      var g0 := LinkGroup(faces[..n - 1], i, m, owner);
      if i in f.vertices {
        var lf := LinkFace(f, i, m, owner);
        LinkFaceNumbered(f, i, m, owner);
        InsertNumbered(g0, lf, m.Values);
        assert LinkGroup(faces, i, m, owner) == SetInsert(g0, lf);
      } else {
        assert LinkGroup(faces, i, m, owner) == g0;
      }
    }
  }

  /** A renamed face's vertices are numbers of the numbering. */
  lemma LinkFaceNumbered(f: FaceValue, i: nat, m: map<nat, nat>, owner: Option<object>)
    requires ElemSet(f.vertices) - {i} <= m.Keys
    ensures forall j :: 0 <= j < |LinkFace(f, i, m, owner).vertices| ==> LinkFace(f, i, m, owner).vertices[j] in m.Values
  {
    var s := Others(f.vertices, i);
    forall j | 0 <= j < |s|
      ensures Rename(m, s)[j] in m.Values
    {
      assert s[j] in ElemSet(s);
    }
  }

  /** Inserting a face whose vertices are in M into a face set whose vertices are in M. */
  lemma InsertNumbered(g0: seq<FaceValue>, lf: FaceValue, M: set<nat>)
    requires FaceSet(g0) && VerticesIn(g0, M)
    requires forall j :: 0 <= j < |lf.vertices| ==> lf.vertices[j] in M
    ensures FaceSet(SetInsert(g0, lf)) && VerticesIn(SetInsert(g0, lf), M)
  {
    SetInsertKeepsFaceSet(g0, lf);
    var g := SetInsert(g0, lf);
    forall k, j | 0 <= k < |g| && 0 <= j < |g[k].vertices|
      ensures g[k].vertices[j] in M
    {
      assert g[k] in multiset(g);
      if g[k] != lf {
        assert g[k] in multiset(g0);
        var k0 :| 0 <= k0 < |g0| && g0[k0] == g[k];
      }
    }
  }

  /** A non-empty group has an incident face. */
  lemma {:induction false} LinkGroupIncident(faces: seq<FaceValue>, i: nat, m: map<nat, nat>, owner: Option<object>)
    requires Neighbours(faces, i) <= m.Keys
    ensures |LinkGroup(faces, i, m, owner)| > 0 ==> exists k :: 0 <= k < |faces| && i in faces[k].vertices
  {
    if |faces| > 0 {
      var n := |faces|;
      LinkGroupIncident(faces[..n - 1], i, m, owner);
      if i !in faces[n - 1].vertices && |LinkGroup(faces, i, m, owner)| > 0 {
        var k :| 0 <= k < n - 1 && i in faces[..n - 1][k].vertices;
        assert faces[k] == faces[..n - 1][k];
      }
    }
  }

  lemma {:induction false} NeighboursOfIncident(faces: seq<FaceValue>, i: nat, k: nat)
    requires k < |faces| && i in faces[k].vertices
    ensures ElemSet(faces[k].vertices) - {i} <= Neighbours(faces, i)
  {
    var n := |faces|;
    if k < n - 1 {
      NeighboursOfIncident(faces[..n - 1], i, k);
      assert faces[..n - 1][k] == faces[k];
    }
  }

  function VertexLists(group: seq<FaceValue>): (r: seq<seq<nat>>)
    ensures |r| == |group| && forall k :: 0 <= k < |group| ==> r[k] == group[k].vertices
  {
    seq(|group|, k requires 0 <= k < |group| => group[k].vertices)
  }

  /** The vertex link of i as the source builds it. */
  method VertexLink(faces: seq<FaceValue>, i: nat, owner: Option<object>)
    returns (group: seq<FaceValue>, nverts: nat, ghost m: map<nat, nat>)
    ensures LinkNumbering(faces, i) == Numbering(m, nverts)
    ensures Neighbours(faces, i) == m.Keys
    ensures group == LinkGroup(faces, i, m, owner)
  {
    group, nverts := [], 0;
    var indexMap: map<nat, nat> := map[];
    var k := 0;
    while k < |faces|
      invariant 0 <= k <= |faces|
      invariant Numbering(indexMap, nverts) == LinkNumbering(faces[..k], i)
      invariant Neighbours(faces[..k], i) == indexMap.Keys
      invariant group == LinkGroup(faces[..k], i, indexMap, owner)
    {
      assert faces[..k + 1][..k] == faces[..k];
      LinkNumberingDense(faces[..k], i);
      var selected, incident := SelectOthers(faces[k].vertices, i);
      if incident {
        var old_map, old_count := indexMap, nverts;
        var renamed;
        renamed, indexMap, nverts := Renumber(selected, indexMap, nverts);
        AssignDense(Numbering(old_map, old_count), selected);
        LinkGroupExtend(faces[..k], i, old_map, indexMap, owner);
        group := SetInsert(group, FaceValue(owner, renamed, [], [], None));
      }
      k := k + 1;
    }
    m := indexMap;
    assert faces[..k] == faces;
  }

  /** `face_group` for vertex i, renamed through the final numbering. */
  ghost function Link(faces: seq<FaceValue>, i: nat, owner: Option<object>): seq<FaceValue>
  {
    LinkNumberingDense(faces, i);
    LinkGroup(faces, i, LinkNumbering(faces, i).index, owner)
  }

  /**
   * The outcome of step 2 for vertex i: check_connectivity on its link.
   * (A non-empty link with no other vertex cannot occur once step 1 passes.)
   */
  ghost function LinkConnected(faces: seq<FaceValue>, i: nat, W: nat, owner: Option<object>): bool
    requires W > 0
  {
    var count := LinkNumbering(faces, i).count;
    var group := Link(faces, i, owner);
    if |group| == 0 then count == 0
    else count > 0 && ConnectedResult(Sets(VertexLists(group)), count, W)
  }

  /** The link's renumbered vertices are all below the count. */
  lemma LinkBelowCount(faces: seq<FaceValue>, i: nat, owner: Option<object>)
    ensures AllInRange(VertexLists(Link(faces, i, owner)), LinkNumbering(faces, i).count)
  {
    LinkNumberingDense(faces, i);
    var nb := LinkNumbering(faces, i);
    var g := LinkGroup(faces, i, nb.index, owner);
    LinkGroupShape(faces, i, nb.index, owner);
    forall k, j | 0 <= k < |g| && 0 <= j < |g[k].vertices|
      ensures g[k].vertices[j] < nb.count
    {
      assert g[k].vertices[j] in nb.index.Values;
      var x :| x in nb.index && nb.index[x] == g[k].vertices[j];
    }
  }

  /**
   * When step 1 passes and no face is a doubled vertex, the
   * link of i is a valid input for check_connectivity: its vertices are
   * all renumbered below nverts, and nverts > 0 whenever it has a face.
   */
  lemma LinkWellDefined(faces: seq<FaceValue>, i: nat, owner: Option<object>)
    requires EdgesOk(faces) && forall k :: 0 <= k < |faces| ==> !Doubled(faces[k].vertices)
    ensures var count := LinkNumbering(faces, i).count;
      var g := Link(faces, i, owner);
      AllInRange(VertexLists(g), count) && (|g| > 0 ==> count > 0) && Defined(VertexLists(g), count)
  {
    LinkBelowCount(faces, i, owner);
    LinkNumberingDense(faces, i);
    var nb := LinkNumbering(faces, i);
    var g := LinkGroup(faces, i, nb.index, owner);
    LinkGroupIncident(faces, i, nb.index, owner);
    if |g| > 0 {
      var k :| 0 <= k < |faces| && i in faces[k].vertices;
      EdgesOkNoConstantFace(faces, k, i);
      var j :| 0 <= j < |faces[k].vertices| && faces[k].vertices[j] != i;
      NeighboursOfIncident(faces, i, k);
      assert faces[k].vertices[j] in ElemSet(faces[k].vertices) - {i};
      assert nb.index[faces[k].vertices[j]] < nb.count;
    }
  }

  /** Step 2 asks whether the link faces are connected and cover every renumbered vertex. */
  lemma LinkConnectedMeaning(faces: seq<FaceValue>, i: nat, W: nat, owner: Option<object>)
    requires W > 0
    ensures var count := LinkNumbering(faces, i).count;
      var fs := Sets(VertexLists(Link(faces, i, owner)));
      |fs| > 0 && count > 0 ==>
        (LinkConnected(faces, i, W, owner) <==>
          Connected(fs) && AllPattern(BitsOfSet(UnionOf(fs, AllIdx(|fs|)), count), W))
  {
    var count := LinkNumbering(faces, i).count;
    var fs := Sets(VertexLists(Link(faces, i, owner)));
    if |fs| > 0 && count > 0 {
      ConnectedResultMeaning(fs, count, W);
    }
  }

  // ---------------------------------------------------------------------
  // The whole check

  /**
   * Model::check_water_tightness on the model's faces and vertex count.
   * A face made of one vertex or two copies of one vertex can pass step 1
   * and then send
   * check_connectivity into Bitset::all() on zero words, which is undefined;
   * such faces are excluded. Step 3 is
   * given: the vertex list of the first self-intersecting face, if any.
   * The result is false exactly when a message is produced.
   */
  method CheckWaterTightness(faces: seq<FaceValue>, nvertices: nat, W: nat, owner: Option<object>,
                             selfIntersection: Option<seq<nat>>)
    returns (r: bool, msg: Option<string>)
    requires W > 0 && forall k :: 0 <= k < |faces| ==> !Doubled(faces[k].vertices)
    ensures Verdict(faces, nvertices, W, owner, selfIntersection, r, msg)
  {
    var occ := EdgeOccurrences(faces);
    var bad := FirstBadEdge(occ);
    if bad.Some? {
      var e := bad.value;
      assert Bad(faces, e);
      forall e' | Bad(faces, e')
        ensures e' == e || EdgeLess(e, e')
      {
        assert e' in occ;
      }
      return false, Some(EdgeMessage(e, occ[e]));
    }
    assert EdgesOk(faces) by {
      forall e
        ensures !Bad(faces, e)
      {
        if Occ(faces, e) > 0 {
          assert e in occ;
        }
      }
    }
    var i := 0;
    while i < nvertices
      invariant 0 <= i <= nvertices
      invariant forall j :: 0 <= j < i ==> LinkConnected(faces, j, W, owner)
    {
      var group, nverts, m := VertexLink(faces, i, owner);
      LinkWellDefined(faces, i, owner);
      var c := CheckConnectivity(VertexLists(group), nverts, W);
      assert group == Link(faces, i, owner);
      assert c.value == LinkConnected(faces, i, W, owner);
      if !c.value {
        return false, Some(VertexMessage(i));
      }
      i := i + 1;
    }
    if selfIntersection.Some? {
      return false, Some(FaceTag(selfIntersection.value) + " Self intersection");
    }
    return true, None;
  }

  /**
   * The verdict of check_water_tightness: r holds exactly when there is no
   * message; the first bad edge (in edge order) is reported when there is
   * one; otherwise the first vertex whose link is not connected; otherwise
   * the self-intersection oracle decides.
   */
  ghost predicate Verdict(faces: seq<FaceValue>, nvertices: nat, W: nat, owner: Option<object>,
                          selfIntersection: Option<seq<nat>>, r: bool, msg: Option<string>)
    requires W > 0
  {
    && (r <==> msg.None?)
    && (!EdgesOk(faces) ==>
          exists e :: IsFirstBadEdge(faces, e) && msg == Some(EdgeMessage(e, Occ(faces, e))))
    && (EdgesOk(faces) && (exists i :: 0 <= i < nvertices && !LinkConnected(faces, i, W, owner)) ==>
          exists i :: 0 <= i < nvertices && !LinkConnected(faces, i, W, owner)
            && (forall j :: 0 <= j < i ==> LinkConnected(faces, j, W, owner))
            && msg == Some(VertexMessage(i)))
    && (EdgesOk(faces) && (forall i :: 0 <= i < nvertices ==> LinkConnected(faces, i, W, owner)) ==>
          msg == if selfIntersection.Some? then Some(FaceTag(selfIntersection.value) + " Self intersection") else None)
  }
}
