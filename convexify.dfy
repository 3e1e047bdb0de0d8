// Model::convexify_faces (src/model/model.cpp, src/model.cpp): a face
// with more than three vertices is cut along the line of its first edge
// that has vertices on the outer side, into the "inner" face (the edge and
// every inside vertex) and one "outer" face per run of outside vertices.
// The pieces go back into a work queue until none is cut any more. The side
// test is floating point and enters as a function; the two copies of the
// source differ only in whether 0 counts as inside.
module Convexify {
  import opened Wrappers
  import opened Arith
  import opened FaceOrder
  import opened Faces

  /** `dot_product(...) >= 0` (src/model/model.cpp) or `> 0` (src/model.cpp). */
  datatype SideRule = NonStrict | Strict

  predicate IsInside(rule: SideRule, d: real)
  {
    if rule == Strict then d > 0.0 else d >= 0.0
  }

  /**
   * side(v, a, b, p): the dot product of cross(b - a, p - a) with the normal
   * of the face with vertices v, for vertex indices a, b, p. It depends
   * only on the Model's coordinates, which convexification leaves alone.
   */
  type SideTest = (seq<nat>, nat, nat, nat) -> real

  /** Position `(i + j) % vsz`: offset j from edge start i. */
  function Pos(n: nat, i: nat, j: nat): (p: nat)
    requires n > 0
    ensures p < n
  {
    (i + j) % n
  }

  lemma PosSmall(n: nat, i: nat)
    requires i < n
    ensures Pos(n, i, 0) == i && Pos(n, i, n) == i
  {
    DivUnique(i, n, 0, i);
    DivUnique(i + n, n, 1, i);
  }

  /** `(vsz + ind - 1) % vsz` is the position before `ind`. */
  lemma PosBefore(n: nat, i: nat, j: nat)
    requires n > 0 && j >= 1
    ensures (n + Pos(n, i, j) - 1) % n == Pos(n, i, j - 1)
  {
    var q, r := (i + j) / n, (i + j) % n;
    DivUnique(i + j, n, q, r);
    if r >= 1 {
      DivUnique(n + r - 1, n, 1, r - 1);
      DivUnique(i + j - 1, n, q, r - 1);
    } else {
      assert q >= 1;
      DivUnique(n - 1, n, 0, n - 1);
      DivUnique(i + j - 1, n, q - 1, n - 1);
    }
  }

  /** `{v[i], v[(i + 1) % vsz]}`, the directed edge at position i. */
  function EdgeAt(v: seq<nat>, i: nat): (nat, nat)
    requires i < |v|
  {
    (v[i], v[(i + 1) % |v|])
  }

  /**
   * For the edge at position i, whether the vertex at each offset is on the
   * inner side. Offsets 0 and 1 are the edge itself and count as inside.
   */
  function Flags(v: seq<nat>, i: nat, rule: SideRule, side: SideTest): (fl: seq<bool>)
    requires i < |v|
    ensures |fl| == |v| && forall j :: 0 <= j < |fl| && j < 2 ==> fl[j]
  {
    var n := |v|;
    seq(n, j requires 0 <= j < n => j < 2 || IsInside(rule, side(v, v[i], v[(i + 1) % n], v[Pos(n, i, j)])))
  }

  predicate AllInside(fl: seq<bool>)
  {
    forall t :: 0 <= t < |fl| ==> fl[t]
  }

  // ---------------------------------------------------------------------
  // One cut

  /** The positions of the inside offsets below m, in order. */
  function InnerPositions(n: nat, i: nat, fl: seq<bool>, m: nat): (r: seq<nat>)
    requires n > 0 && m <= |fl|
    ensures forall k :: 0 <= k < |r| ==> r[k] < n
  {
    if m == 0 then []
    else InnerPositions(n, i, fl, m - 1) + (if fl[m - 1] then [Pos(n, i, m - 1)] else [])
  }

  /**
   * Offsets a..b are outside, and form a maximal run: the offset before is
   * inside, and so is the one after, unless the run reaches the end (offset
   * n, which is position i again).
   */
  ghost predicate OuterRun(fl: seq<bool>, a: nat, b: nat)
  {
    2 <= a <= b < |fl| && fl[a - 1] && (forall t :: a <= t <= b ==> !fl[t])
    && (b + 1 == |fl| || fl[b + 1])
  }

  /** The inside position before the run, then the run's positions. */
  function OpenRun(n: nat, i: nat, a: nat, b: nat): (r: seq<nat>)
    requires n > 0 && a >= 1
    ensures a <= b + 1 ==> |r| == b + 2 - a
    ensures forall k :: 0 <= k < |r| ==> r[k] < n
    decreases b
  {
    if b < a then [Pos(n, i, a - 1)] else OpenRun(n, i, a, b - 1) + [Pos(n, i, b)]
  }

  /** An outer face: the run with an inside position (or i) at each end. */
  function RunPositions(n: nat, i: nat, a: nat, b: nat): (r: seq<nat>)
    requires n > 0 && 1 <= a <= b
    ensures |r| == b - a + 3
  {
    OpenRun(n, i, a, b) + [Pos(n, i, b + 1)]
  }

  /** The first c runs are complete outer runs ending before offset j, with their position lists. */
  ghost predicate Closed(n: nat, i: nat, fl: seq<bool>, outers: seq<seq<nat>>, runs: seq<(nat, nat)>, c: nat, j: nat)
    requires n > 0
  {
    c <= |runs| && c <= |outers|
    && forall k :: 0 <= k < c ==>
         OuterRun(fl, runs[k].0, runs[k].1) && runs[k].1 < j
         && outers[k] == RunPositions(n, i, runs[k].0, runs[k].1)
  }

  /** The last run is open: it reaches offset j - 1 and its list still lacks the closing position. */
  ghost predicate OpenAt(n: nat, i: nat, fl: seq<bool>, outers: seq<seq<nat>>, runs: seq<(nat, nat)>, j: nat)
    requires n > 0
  {
    |runs| > 0 && |outers| == |runs| && j <= |fl|
    && var a := runs[|runs| - 1].0;
       2 <= a <= j - 1 && runs[|runs| - 1].1 == j - 1 && fl[a - 1]
       && (forall t :: a <= t < j ==> !fl[t])
       && outers[|runs| - 1] == OpenRun(n, i, a, j - 1)
  }

  ghost predicate Ascending(runs: seq<(nat, nat)>)
  {
    forall k, k' :: 0 <= k < k' < |runs| ==> runs[k].1 < runs[k'].0
  }

  /** Every outside offset from 2 up to j lies in one of the runs. */
  ghost predicate Covered(fl: seq<bool>, runs: seq<(nat, nat)>, j: nat)
  {
    forall t :: 2 <= t < j && t < |fl| && !fl[t] ==> exists k :: 0 <= k < |runs| && runs[k].0 <= t <= runs[k].1
  }

  /** The inner and outer position lists for the cut at edge i: `runs` are the outer runs, in order. */
  ghost predicate SplitOf(n: nat, i: nat, fl: seq<bool>, inner: seq<nat>, outers: seq<seq<nat>>, runs: seq<(nat, nat)>)
    requires n > 0 && |fl| == n
  {
    && inner == InnerPositions(n, i, fl, n)
    && |outers| == |runs|
    && Closed(n, i, fl, outers, runs, |runs|, n)
    && Ascending(runs)
    && Covered(fl, runs, n)
  }

  /** The state of the j loop: runs before the last are closed; the last is still open while the previous vertex was outside. */
  ghost predicate Scanning(n: nat, i: nat, fl: seq<bool>, j: nat, prevInside: bool,
                           inner: seq<nat>, outers: seq<seq<nat>>, runs: seq<(nat, nat)>)
    requires n > 0 && |fl| == n
  {
    && 2 <= j <= n && prevInside == fl[j - 1]
    && inner == InnerPositions(n, i, fl, j)
    && |outers| == |runs|
    && (prevInside ==> Closed(n, i, fl, outers, runs, |runs|, j - 1))
    && (!prevInside ==> OpenAt(n, i, fl, outers, runs, j) && Closed(n, i, fl, outers, runs, |runs| - 1, j - 1))
    && Ascending(runs)
    && Covered(fl, runs, j)
  }

  lemma ClosedKeep(n: nat, i: nat, fl: seq<bool>, o: seq<seq<nat>>, r: seq<(nat, nat)>,
                   o': seq<seq<nat>>, r': seq<(nat, nat)>, c: nat, j: nat, j': nat)
    requires n > 0 && Closed(n, i, fl, o, r, c, j) && j <= j' && c <= |o'| && c <= |r'|
    requires forall k :: 0 <= k < c ==> o'[k] == o[k] && r'[k] == r[k]
    ensures Closed(n, i, fl, o', r', c, j')
  {
  }

  lemma CloseRun(n: nat, i: nat, fl: seq<bool>, o: seq<seq<nat>>, r: seq<(nat, nat)>, j: nat)
    requires n > 0 && |fl| == n && j < n && fl[j]
    requires OpenAt(n, i, fl, o, r, j) && Closed(n, i, fl, o, r, |r| - 1, j - 1)
    ensures Closed(n, i, fl, o[|o| - 1 := o[|o| - 1] + [Pos(n, i, j)]], r, |r|, j)
  {
    var last := |r| - 1;
    var o' := o[last := o[last] + [Pos(n, i, j)]];
    ClosedKeep(n, i, fl, o, r, o', r, last, j - 1, j);
    assert OuterRun(fl, r[last].0, r[last].1);
  }

  lemma CoveredKeep(fl: seq<bool>, r: seq<(nat, nat)>, r': seq<(nat, nat)>, j: nat)
    requires Covered(fl, r, j) && |r| <= |r'|
    requires forall k :: 0 <= k < |r| ==> r'[k].0 <= r[k].0 && r[k].1 <= r'[k].1
    ensures Covered(fl, r', j)
  {
    forall t | 2 <= t < j && t < |fl| && !fl[t]
      ensures exists k :: 0 <= k < |r'| && r'[k].0 <= t <= r'[k].1
    {
      var k :| 0 <= k < |r| && r[k].0 <= t <= r[k].1;
      assert r'[k].0 <= t <= r'[k].1;
    }
  }

  lemma CoveredStep(fl: seq<bool>, r: seq<(nat, nat)>, j: nat)
    requires Covered(fl, r, j) && j < |fl|
    requires !fl[j] ==> exists k :: 0 <= k < |r| && r[k].0 <= j <= r[k].1
    ensures Covered(fl, r, j + 1)
  {
  }

  lemma StepInside(n: nat, i: nat, fl: seq<bool>, j: nat, prevInside: bool,
                   inner: seq<nat>, outers: seq<seq<nat>>, runs: seq<(nat, nat)>)
    requires n > 0 && |fl| == n && j < n && fl[j]
    requires Scanning(n, i, fl, j, prevInside, inner, outers, runs)
    ensures var outers' := if prevInside then outers else outers[|outers| - 1 := outers[|outers| - 1] + [Pos(n, i, j)]];
      Scanning(n, i, fl, j + 1, true, inner + [Pos(n, i, j)], outers', runs)
  {
    CoveredStep(fl, runs, j);
    if prevInside {
      ClosedKeep(n, i, fl, outers, runs, outers, runs, |runs|, j - 1, j);
    } else {
      CloseRun(n, i, fl, outers, runs, j);
    }
  }

  /** An outside vertex after an inside one opens a run at j. */
  lemma StartRun(n: nat, i: nat, fl: seq<bool>, j: nat,
                 inner: seq<nat>, outers: seq<seq<nat>>, runs: seq<(nat, nat)>)
    requires n > 0 && |fl| == n && j < n && !fl[j]
    requires Scanning(n, i, fl, j, true, inner, outers, runs)
    ensures Scanning(n, i, fl, j + 1, false, inner, outers + [[Pos(n, i, j - 1), Pos(n, i, j)]], runs + [(j, j)])
  {
    var outers' := outers + [[Pos(n, i, j - 1), Pos(n, i, j)]];
    var runs' := runs + [(j, j)];
    ClosedKeep(n, i, fl, outers, runs, outers', runs', |runs|, j - 1, j);
    assert OpenRun(n, i, j, j) == [Pos(n, i, j - 1), Pos(n, i, j)];
    assert OpenAt(n, i, fl, outers', runs', j + 1);
    CoveredKeep(fl, runs, runs', j);
    assert runs'[|runs|].0 <= j <= runs'[|runs|].1;
    CoveredStep(fl, runs', j);
    assert Ascending(runs') by {
      forall k | 0 <= k < |runs|
        ensures runs[k].1 < j
      {
        assert OuterRun(fl, runs[k].0, runs[k].1) && runs[k].1 < j - 1;
      }
    }
  }

  /** An outside vertex after an outside one extends the open run to j. */
  lemma ExtendRun(n: nat, i: nat, fl: seq<bool>, j: nat,
                  inner: seq<nat>, outers: seq<seq<nat>>, runs: seq<(nat, nat)>)
    requires n > 0 && |fl| == n && j < n && !fl[j]
    requires Scanning(n, i, fl, j, false, inner, outers, runs)
    ensures var last := |runs| - 1;
      Scanning(n, i, fl, j + 1, false, inner, outers[last := outers[last] + [Pos(n, i, j)]],
               runs[last := (runs[last].0, j)])
  {
    var last := |runs| - 1;
    var outers' := outers[last := outers[last] + [Pos(n, i, j)]];
    var runs' := runs[last := (runs[last].0, j)];
    ClosedKeep(n, i, fl, outers, runs, outers', runs', last, j - 1, j);
    assert OpenAt(n, i, fl, outers', runs', j + 1);
    CoveredKeep(fl, runs, runs', j);
    assert runs'[last].0 <= j <= runs'[last].1;
    CoveredStep(fl, runs', j);
  }

  /** Closing the last open run with position i at the end of the loop. */
  lemma ScanDone(n: nat, i: nat, fl: seq<bool>, prevInside: bool,
                 inner: seq<nat>, outers: seq<seq<nat>>, runs: seq<(nat, nat)>)
    requires n >= 2 && |fl| == n && i < n
    requires Scanning(n, i, fl, n, prevInside, inner, outers, runs)
    ensures var outers' := if prevInside then outers else outers[|outers| - 1 := outers[|outers| - 1] + [i]];
      SplitOf(n, i, fl, inner, outers', runs)
  {
    PosSmall(n, i);
    if prevInside {
      ClosedKeep(n, i, fl, outers, runs, outers, runs, |runs|, n - 1, n);
    } else {
      var last := |runs| - 1;
      var outers' := outers[last := outers[last] + [i]];
      ClosedKeep(n, i, fl, outers, runs, outers', runs, last, n - 1, n);
      assert OuterRun(fl, runs[last].0, runs[last].1);
      assert outers'[last] == RunPositions(n, i, runs[last].0, runs[last].1);
    }
  }

  /** An inside vertex: `inner_indices.push_back(ind)`, closing the open outer list if there is one. */
  method InsideOffset(n: nat, i: nat, ghost fl: seq<bool>, j: nat, isPrevInside: bool, ind: nat,
                      inner: seq<nat>, outers: seq<seq<nat>>, ghost runs: seq<(nat, nat)>)
    returns (inner': seq<nat>, outers': seq<seq<nat>>)
    requires n > 0 && |fl| == n && j < n && fl[j] && ind == Pos(n, i, j)
    requires Scanning(n, i, fl, j, isPrevInside, inner, outers, runs)
    ensures Scanning(n, i, fl, j + 1, true, inner', outers', runs)
  {
    StepInside(n, i, fl, j, isPrevInside, inner, outers, runs);
    inner' := inner + [ind];
    outers' := outers;
    if !isPrevInside {
      outers' := outers'[|outers'| - 1 := outers'[|outers'| - 1] + [ind]];
    }
  }

  /** An outside vertex: it opens an outer list (from the position before) or extends the open one. */
  method OutsideOffset(n: nat, i: nat, ghost fl: seq<bool>, j: nat, isPrevInside: bool, ind: nat,
                       inner: seq<nat>, outers: seq<seq<nat>>, ghost runs: seq<(nat, nat)>)
    returns (outers': seq<seq<nat>>, ghost runs': seq<(nat, nat)>)
    requires n > 0 && |fl| == n && 2 <= j < n && !fl[j] && ind == Pos(n, i, j)
    requires Scanning(n, i, fl, j, isPrevInside, inner, outers, runs)
    ensures Scanning(n, i, fl, j + 1, false, inner, outers', runs')
  {
    if isPrevInside {
      // `outer_indices.push_back({prev_ind})`, then `ind` joins it
      StartRun(n, i, fl, j, inner, outers, runs);
      PosBefore(n, i, j);
      var prev: nat := (n + ind - 1) % n;
      outers' := outers + [[prev, ind]];
      runs' := runs + [(j, j)];
    } else {
      ExtendRun(n, i, fl, j, inner, outers, runs);
      outers' := outers[|outers| - 1 := outers[|outers| - 1] + [ind]];
      runs' := runs[|runs| - 1 := (runs[|runs| - 1].0, j)];
    }
  }

  /**
   * The inner/outer split for the edge at position i: the inner list is
   * the edge and the inside positions, and each outer list is a maximal
   * run of outside positions with its two inside neighbours.
   */
  method SplitAt(v: seq<nat>, i: nat, rule: SideRule, side: SideTest)
    returns (inner: seq<nat>, outers: seq<seq<nat>>, ghost runs: seq<(nat, nat)>)
    requires 2 <= |v| && i < |v|
    ensures SplitOf(|v|, i, Flags(v, i, rule, side), inner, outers, runs)
  {
    var n := |v|;
    ghost var fl := Flags(v, i, rule, side);
    PosSmall(n, i);
    inner := [i, (i + 1) % n];
    assert InnerPositions(n, i, fl, 1) == [i];
    assert inner == InnerPositions(n, i, fl, 2);
    outers, runs := [], [];
    var isPrevInside := true;
    var j := 2;
    while j < n
      invariant Scanning(n, i, fl, j, isPrevInside, inner, outers, runs)
      decreases n - j
    {
      var ind: nat := (i + j) % n;
      var isInside := IsInside(rule, side(v, v[i], v[(i + 1) % n], v[ind]));
      assert isInside == fl[j];
      if isInside {
        inner, outers := InsideOffset(n, i, fl, j, isPrevInside, ind, inner, outers, runs);
      } else {
        outers, runs := OutsideOffset(n, i, fl, j, isPrevInside, ind, inner, outers, runs);
      }
      isPrevInside := isInside;
      j := j + 1;
    }
    ScanDone(n, i, fl, isPrevInside, inner, outers, runs);
    if !isPrevInside {
      outers := outers[|outers| - 1 := outers[|outers| - 1] + [i]];
    }
  }

  lemma {:induction false} InnerStart(n: nat, i: nat, fl: seq<bool>, m: nat)
    requires i < n && 2 <= m <= |fl| && fl[0] && fl[1]
    ensures var r := InnerPositions(n, i, fl, m);
      |r| >= 2 && r[0] == i && r[1] == (i + 1) % n
  {
    PosSmall(n, i);
    if m > 2 {
      InnerStart(n, i, fl, m - 1);
    } else {
      assert InnerPositions(n, i, fl, 1) == [Pos(n, i, 0)];
    }
  }

  /** Every outer list of a cut has at least three positions, all in range. */
  lemma OutersShape(n: nat, i: nat, fl: seq<bool>, outers: seq<seq<nat>>, runs: seq<(nat, nat)>)
    requires n > 0 && |fl| == n && |outers| == |runs| && Closed(n, i, fl, outers, runs, |runs|, n)
    ensures forall k :: 0 <= k < |outers| ==> |outers[k]| >= 3 && forall t :: 0 <= t < |outers[k]| ==> outers[k][t] < n
  {
    forall k | 0 <= k < |outers|
      ensures |outers[k]| >= 3 && forall t :: 0 <= t < |outers[k]| ==> outers[k][t] < n
    {
      assert OuterRun(fl, runs[k].0, runs[k].1);
    }
  }

  /** A cut has outer lists exactly when some vertex is outside. */
  lemma OutersIffOutside(n: nat, i: nat, fl: seq<bool>, outers: seq<seq<nat>>, runs: seq<(nat, nat)>)
    requires n >= 2 && |fl| == n && fl[0] && fl[1] && |outers| == |runs|
    requires Closed(n, i, fl, outers, runs, |runs|, n) && Covered(fl, runs, n)
    ensures |outers| == 0 <==> AllInside(fl)
  {
    assert forall k :: 0 <= k < |runs| ==> OuterRun(fl, runs[k].0, runs[k].1);
    RunsIffOutside(fl, runs);
  }

  /** Some offset is outside exactly when there is an outer run. */
  lemma RunsIffOutside(fl: seq<bool>, runs: seq<(nat, nat)>)
    requires |fl| >= 2 && fl[0] && fl[1] && Covered(fl, runs, |fl|)
    requires forall k :: 0 <= k < |runs| ==> OuterRun(fl, runs[k].0, runs[k].1)
    ensures |runs| == 0 <==> AllInside(fl)
  {
    if !AllInside(fl) {
      var t :| 0 <= t < |fl| && !fl[t];
      assert 2 <= t;
      var k :| 0 <= k < |runs| && runs[k].0 <= t <= runs[k].1;
    }
    if |runs| > 0 {
      assert OuterRun(fl, runs[0].0, runs[0].1);
      var a := runs[0].0;
      assert !fl[a];
    }
  }

  /**
   * What a cut promises: the inner list starts with the edge [i, i+1],
   * every outer list has at least three positions, and there are outer
   * lists exactly when some vertex is outside.
   */
  lemma SplitShape(n: nat, i: nat, fl: seq<bool>, inner: seq<nat>, outers: seq<seq<nat>>, runs: seq<(nat, nat)>)
    requires 2 <= n && i < n && |fl| == n && fl[0] && fl[1]
    requires SplitOf(n, i, fl, inner, outers, runs)
    ensures |inner| >= 2 && inner[0] == i && inner[1] == (i + 1) % n
    ensures forall k :: 0 <= k < |inner| ==> inner[k] < n
    ensures forall k :: 0 <= k < |outers| ==> |outers[k]| >= 3 && forall t :: 0 <= t < |outers[k]| ==> outers[k][t] < n
    ensures |outers| == 0 <==> AllInside(fl)
  {
    InnerStart(n, i, fl, n);
    OutersShape(n, i, fl, outers, runs);
    OutersIffOutside(n, i, fl, outers, runs);
  }

  // ---------------------------------------------------------------------
  // The scan over one face's edges

  function EdgesBelow(v: seq<nat>, m: nat): set<(nat, nat)>
    requires m <= |v|
  {
    set p | 0 <= p < m :: EdgeAt(v, p)
  }

  /**
   * The `for (; i < vsz; ++i)` loop over a queued face: edges already
   * visited are skipped, every tested edge is marked visited, and the loop
   * stops at the first edge whose line has vertices outside. i == |v| means
   * the face is kept as it is.
   */
  method ScanEdges(v: seq<nat>, visited: set<(nat, nat)>, rule: SideRule, side: SideTest)
    returns (i: nat, inner: seq<nat>, outers: seq<seq<nat>>, visited': set<(nat, nat)>, ghost runs: seq<(nat, nat)>)
    requires |v| >= 2
    ensures i <= |v|
    ensures visited' == visited + EdgesBelow(v, if i < |v| then i + 1 else |v|)
    ensures Scanned(v, visited, i, rule, side)
    ensures i < |v| ==> (EdgeAt(v, i) !in visited + EdgesBelow(v, i) && |outers| > 0
      && SplitOf(|v|, i, Flags(v, i, rule, side), inner, outers, runs))
  {
    var n := |v|;
    visited' := visited;
    inner, outers, runs := [], [], [];
    i := 0;
    while i < n
      invariant 0 <= i <= n
      invariant visited' == visited + EdgesBelow(v, i)
      invariant Scanned(v, visited, i, rule, side)
    {
      var e := (v[i], v[(i + 1) % n]);
      assert e == EdgeAt(v, i);
      assert EdgesBelow(v, i + 1) == EdgesBelow(v, i) + {e};
      if e in visited' {
        ScannedStep(v, visited, i, rule, side);
        visited' := visited' + {e};
        i := i + 1;
        continue;
      }
      inner, outers, runs := SplitAt(v, i, rule, side);
      visited' := visited' + {e};
      SplitShape(n, i, Flags(v, i, rule, side), inner, outers, runs);
      if |outers| > 0 {
        return;
      }
      ScannedStep(v, visited, i, rule, side);
      i := i + 1;
    }
  }

  /** Every edge before i was seen before, or cutting there leaves no vertex outside. */
  ghost predicate Scanned(v: seq<nat>, visited: set<(nat, nat)>, i: nat, rule: SideRule, side: SideTest)
    requires |v| >= 2 && i <= |v|
  {
    forall p :: 0 <= p < i ==> EdgeAt(v, p) in visited + EdgesBelow(v, p) || AllInside(Flags(v, p, rule, side))
  }

  lemma ScannedStep(v: seq<nat>, visited: set<(nat, nat)>, i: nat, rule: SideRule, side: SideTest)
    requires |v| >= 2 && i < |v| && Scanned(v, visited, i, rule, side)
    requires EdgeAt(v, i) in visited + EdgesBelow(v, i) || AllInside(Flags(v, i, rule, side))
    ensures Scanned(v, visited, i + 1, rule, side)
  {
  }

  // ---------------------------------------------------------------------
  // The work queue for one original face

  /** Texture and normal lists are empty or parallel to the vertex list. */
  predicate Parallel(f: FaceValue)
  {
    (|f.textureVertices| == 0 || |f.textureVertices| == |f.vertices|)
    && (|f.vertexNormals| == 0 || |f.vertexNormals| == |f.vertices|)
  }

  /** p is a piece of f: same owner, at least two vertices, indices drawn from f's lists. */
  ghost predicate Descends(p: FaceValue, f: FaceValue)
  {
    p.owner == f.owner && |p.vertices| >= 2 && Parallel(p)
    && ElemSet(p.vertices) <= ElemSet(f.vertices)
    && ElemSet(p.textureVertices) <= ElemSet(f.textureVertices)
    && ElemSet(p.vertexNormals) <= ElemSet(f.vertexNormals)
  }

  /** `Face(tmpf, indices)` for in-range positions is a piece of tmpf. */
  lemma SubFaceDescends(q: FaceValue, indices: seq<nat>)
    requires Parallel(q) && InRange(indices, |q.vertices|) && |indices| >= 2
    ensures CanProject(q, indices) && Descends(SubFaceValue(q, indices), q)
  {
    ProjectElems(q.vertices, indices);
    if |q.textureVertices| > 0 {
      ProjectElems(q.textureVertices, indices);
    }
    if |q.vertexNormals| > 0 {
      ProjectElems(q.vertexNormals, indices);
    }
  }

  /** Every ordered pair of f's vertices: the edges convexification can visit for f. */
  ghost function Universe(f: FaceValue): set<(nat, nat)>
  {
    set a, b | a in ElemSet(f.vertices) && b in ElemSet(f.vertices) :: (a, b)
  }

  lemma EdgesInUniverse(v: seq<nat>, f: FaceValue, m: nat)
    requires m <= |v| && ElemSet(v) <= ElemSet(f.vertices)
    ensures EdgesBelow(v, m) <= Universe(f)
  {
    forall p | 0 <= p < m
      ensures EdgeAt(v, p) in Universe(f)
    {
      assert v[p] in ElemSet(v) && v[(p + 1) % |v|] in ElemSet(v);
    }
  }

  lemma {:induction false} CardMono<T>(A: set<T>, B: set<T>)
    requires A <= B
    ensures |A| <= |B|
    decreases |B|
  {
    if A != {} {
      var x :| x in A;
      CardMono(A - {x}, B - {x});
    }
  }

  /** Visiting more edges never raises the count of unvisited ones, and visiting a new one lowers it. */
  lemma Unvisited<T>(U: set<T>, V: set<T>, V': set<T>)
    requires V <= V' <= U
    ensures |U - V'| <= |U - V|
    ensures (exists e :: e in V' && e !in V) ==> |U - V'| < |U - V|
  {
    CardMono(U - V', U - V);
    if exists e :: e in V' && e !in V {
      var e :| e in V' && e !in V;
      CardMono(U - V', (U - V) - {e});
    }
  }

  /** Descends is transitive. */
  lemma DescendsTrans(p: FaceValue, q: FaceValue, f: FaceValue)
    requires Descends(p, q) && Descends(q, f)
    ensures Descends(p, f)
  {
  }

  /** The pieces a cut pushes onto the queue: the inner face, then one face per outer list. */
  method Pieces(q: FaceValue, inner: seq<nat>, outers: seq<seq<nat>>) returns (ps: seq<FaceValue>)
    requires Parallel(q) && InRange(inner, |q.vertices|) && |inner| >= 2
    requires forall k :: 0 <= k < |outers| ==> InRange(outers[k], |q.vertices|) && |outers[k]| >= 3
    ensures |ps| == |outers| + 1 && forall k :: 0 <= k < |ps| ==> Descends(ps[k], q)
    ensures CanProject(q, inner) && ps[0] == SubFaceValue(q, inner)
    ensures forall k :: 0 <= k < |outers| ==> CanProject(q, outers[k]) && ps[k + 1] == SubFaceValue(q, outers[k])
  {
    SubFaceDescends(q, inner);
    ps := [SubFaceValue(q, inner)];
    var k := 0;
    while k < |outers|
      invariant 0 <= k <= |outers| && |ps| == k + 1
      invariant forall t :: 0 <= t < |ps| ==> Descends(ps[t], q)
      invariant ps[0] == SubFaceValue(q, inner)
      invariant forall t :: 0 <= t < k ==> CanProject(q, outers[t]) && ps[t + 1] == SubFaceValue(q, outers[t])
    {
      SubFaceDescends(q, outers[k]);
      ps := ps + [SubFaceValue(q, outers[k])];
      k := k + 1;
    }
  }

  /** new_faces so far: a face set that keeps what it started with and otherwise holds pieces of f. */
  ghost predicate Collected(nf: seq<FaceValue>, base: seq<FaceValue>, f: FaceValue)
  {
    FaceSet(nf) && multiset(base) <= multiset(nf)
    && forall k :: 0 <= k < |nf| ==> nf[k] in base || Descends(nf[k], f)
  }

  lemma CollectPiece(nf: seq<FaceValue>, base: seq<FaceValue>, f: FaceValue, p: FaceValue)
    requires Collected(nf, base, f) && Descends(p, f)
    ensures Collected(SetInsert(nf, p), base, f)
  {
    SetInsertKeepsFaceSet(nf, p);
    var nf' := SetInsert(nf, p);
    forall k | 0 <= k < |nf'|
      ensures nf'[k] in base || Descends(nf'[k], f)
    {
      if nf'[k] != p {
        assert nf'[k] in multiset(nf);
      }
    }
  }

  /**
   * One turn of the deque loop: the front face is taken off the queue and
   * either kept (inserted into `new_faces`) or cut, with its pieces pushed
   * to the back. Either the set of visited edges gains an edge of f or the
   * queue gets shorter.
   */
  method ProcessFront(f: FaceValue, queue: seq<FaceValue>, visited: set<(nat, nat)>, nf: seq<FaceValue>,
                      ghost base: seq<FaceValue>, rule: SideRule, side: SideTest)
    returns (queue': seq<FaceValue>, visited': set<(nat, nat)>, nf': seq<FaceValue>)
    requires |queue| > 0 && visited <= Universe(f)
    requires forall k :: 0 <= k < |queue| ==> Descends(queue[k], f)
    requires Collected(nf, base, f)
    ensures visited <= visited' <= Universe(f)
    ensures forall k :: 0 <= k < |queue'| ==> Descends(queue'[k], f)
    ensures Collected(nf', base, f)
    ensures visited' != visited || |queue'| < |queue|
  {
    var tmpf := queue[0];
    var v := tmpf.vertices;
    if |v| == 3 {
      EdgesInUniverse(v, f, 3);
      assert (v[0], v[1]) == EdgeAt(v, 0) && (v[1], v[2]) == EdgeAt(v, 1) && (v[2], v[0]) == EdgeAt(v, 2);
      visited' := visited + {(v[0], v[1]), (v[1], v[2]), (v[2], v[0])};
      CollectPiece(nf, base, f, tmpf);
      nf' := SetInsert(nf, tmpf);
      queue' := queue[1..];
    } else {
      var i, inner, outers;
      ghost var runs;
      i, inner, outers, visited', runs := ScanEdges(v, visited, rule, side);
      EdgesInUniverse(v, f, |v|);
      if i == |v| {
        CollectPiece(nf, base, f, tmpf);
        nf' := SetInsert(nf, tmpf);
        queue' := queue[1..];
      } else {
        SplitShape(|v|, i, Flags(v, i, rule, side), inner, outers, runs);
        assert EdgeAt(v, i) in visited' && EdgeAt(v, i) !in visited;
        var ps := Pieces(tmpf, inner, outers);
        forall k | 0 <= k < |ps|
          ensures Descends(ps[k], f)
        {
          DescendsTrans(ps[k], tmpf, f);
        }
        nf' := nf;
        queue' := queue[1..] + ps;
      }
    }
  }

  /**
   * The deque loop for one original face f: its pieces are inserted into
   * `new_faces`. Every face that ends up there is a piece of f or was
   * there before, and nothing that was there is lost. The loop ends:
   * every cut visits an edge of f not visited before, and every other step
   * removes a face from the queue.
   */
  method ConvexifyFace(f: FaceValue, newFaces: seq<FaceValue>, rule: SideRule, side: SideTest)
    returns (newFaces': seq<FaceValue>)
    requires |f.vertices| >= 2 && Parallel(f)
    requires Collected(newFaces, newFaces, f)
    ensures Collected(newFaces', newFaces, f)
  {
    var queue := [f];
    var visited: set<(nat, nat)> := {};
    ghost var U := Universe(f);
    newFaces' := newFaces;
    while |queue| > 0
      invariant visited <= U
      invariant forall k :: 0 <= k < |queue| ==> Descends(queue[k], f)
      invariant Collected(newFaces', newFaces, f)
      decreases |U - visited|, |queue|
    {
      ghost var before := visited;
      queue, visited, newFaces' := ProcessFront(f, queue, visited, newFaces', newFaces, rule, side);
      Unvisited(U, before, visited);
    }
  }
}
