// Model::check_connectivity (src/model/model.cpp, src/model.cpp): each
// face becomes a Bitset of its vertex indices; starting from the last
// face's set, faces that share a vertex with the union so far are merged
// into it, in at most (number of faces - 1) passes. The faces are
// connected when every face was merged and Bitset::all() holds for the
// union.
module Connectivity {
  import opened Wrappers
  import opened FaceOrder
  import opened Bitsets

  /** The state of the merge: the union's vertices and the indices of the faces not yet merged. */
  datatype State = State(U: set<nat>, L: seq<nat>)

  function AllIdx(m: nat): (r: set<nat>)
    ensures forall i: nat :: i in r <==> i < m
  {
    if m == 0 then {} else AllIdx(m - 1) + {m - 1}
  }

  predicate IndicesBelow(L: seq<nat>, m: nat)
  {
    forall k :: 0 <= k < |L| ==> L[k] < m
  }

  /** The vertices of the faces with indices in R. */
  ghost function UnionOf(fs: seq<set<nat>>, R: set<nat>): set<nat>
  {
    set i, v | i in R && 0 <= i < |fs| && v in fs[i] :: v
  }

  /** Some face indexed in S shares a vertex with some face indexed in T. */
  ghost predicate Linked(fs: seq<set<nat>>, S: set<nat>, T: set<nat>)
  {
    exists i, j :: i in S && j in T && 0 <= i < |fs| && 0 <= j < |fs| && fs[i] * fs[j] != {}
  }

  ghost predicate ProperPart(S: set<nat>, R: set<nat>)
  {
    S <= R && S != {} && S != R
  }

  /** No split of the faces indexed in R into two parts that share no vertex. */
  ghost predicate ConnectedSet(fs: seq<set<nat>>, R: set<nat>)
  {
    forall S {:trigger ProperPart(S, R)} :: ProperPart(S, R) ==> Linked(fs, S, R - S)
  }

  /** The faces form one connected piece: no split of them shares no vertex. */
  ghost predicate Connected(fs: seq<set<nat>>)
  {
    ConnectedSet(fs, AllIdx(|fs|))
  }

  /** The pass loop over the connection list: merge a face when it meets the union, keep it otherwise. */
  function PassFrom(fs: seq<set<nat>>, U: set<nat>, kept: seq<nat>, L: seq<nat>): (st: State)
    requires IndicesBelow(L, |fs|)
    ensures |st.L| <= |kept| + |L|
    decreases |L|
  {
    if |L| == 0 then State(U, kept)
    else if fs[L[0]] * U != {} then PassFrom(fs, U + fs[L[0]], kept, L[1..])
    else PassFrom(fs, U, kept + [L[0]], L[1..])
  }

  /** `while (!connections.empty() && nconn--)`: at most `budget` passes. */
  function Passes(fs: seq<set<nat>>, U: set<nat>, L: seq<nat>, budget: nat): State
    requires IndicesBelow(L, |fs|)
    decreases budget
  {
    if |L| == 0 || budget == 0 then State(U, L)
    else
      var st := PassFrom(fs, U, [], L);
      PassFromIndices(fs, U, [], L);
      Passes(fs, st.U, st.L, budget - 1)
  }

  lemma {:induction false} PassFromIndices(fs: seq<set<nat>>, U: set<nat>, kept: seq<nat>, L: seq<nat>)
    requires IndicesBelow(L, |fs|) && IndicesBelow(kept, |fs|)
    ensures IndicesBelow(PassFrom(fs, U, kept, L).L, |fs|)
    decreases |L|
  {
    if |L| > 0 {
      if fs[L[0]] * U != {} {
        PassFromIndices(fs, U + fs[L[0]], kept, L[1..]);
      } else {
        PassFromIndices(fs, U, kept + [L[0]], L[1..]);
      }
    }
  }

  /** `connections`: the faces pushed to the front one by one, i.e. in reverse order. */
  function Countdown(n: nat): (L: seq<nat>)
    ensures |L| == n && IndicesBelow(L, n)
    ensures forall k :: 0 <= k < n ==> L[k] == n - 1 - k
  {
    if n == 0 then [] else [n - 1] + Countdown(n - 1)
  }

  /** A vertex set as the Bitset of nverts bits. */
  function BitsOfSet(U: set<nat>, n: nat): (bits: seq<bool>)
    ensures |bits| == n
  {
    seq(n, i requires 0 <= i < n => i in U)
  }

  predicate SetsBelow(fs: seq<set<nat>>, n: nat)
  {
    forall k, v :: 0 <= k < |fs| && v in fs[k] ==> v < n
  }

  /**
   * What check_connectivity returns for non-empty faces whose indices are
   * all below nverts: every face merged and the union's Bitset passes all().
   */
  ghost function ConnectedResult(fs: seq<set<nat>>, nverts: nat, W: nat): bool
    requires W > 0 && |fs| > 0 && nverts > 0
  {
    var m := |fs|;
    var st := Passes(fs, fs[m - 1], Countdown(m - 1), m - 1);
    |st.L| == 0 && AllPattern(BitsOfSet(st.U, nverts), W)
  }

  // ---------------------------------------------------------------------
  // The merge keeps the merged faces connected

  lemma UnionOfSingle(fs: seq<set<nat>>, i: nat)
    requires i < |fs|
    ensures UnionOf(fs, {i}) == fs[i]
  {
  }

  lemma UnionOfAdd(fs: seq<set<nat>>, R: set<nat>, i: nat)
    requires i < |fs|
    ensures UnionOf(fs, R + {i}) == UnionOf(fs, R) + fs[i]
  {
  }

  lemma NoProperPartOfSingleton(S: set<nat>, i: nat)
    ensures !ProperPart(S, {i})
  {
    if S <= {i} && S != {} {
      var x :| x in S;
      assert S == {i};
    }
  }

  lemma SingletonConnected(fs: seq<set<nat>>, i: nat)
    ensures ConnectedSet(fs, {i})
  {
    forall S
      ensures !ProperPart(S, {i})
    {
      NoProperPartOfSingleton(S, i);
    }
  }

  /** A face that meets the union of a connected group joins it into a connected group. */
  lemma ConnectedExtend(fs: seq<set<nat>>, R: set<nat>, i: nat)
    requires ConnectedSet(fs, R) && i !in R && i < |fs|
    requires fs[i] * UnionOf(fs, R) != {}
    ensures ConnectedSet(fs, R + {i})
  {
    var v :| v in fs[i] * UnionOf(fs, R);
    var j :| j in R && 0 <= j < |fs| && v in fs[j];
    assert v in fs[i] * fs[j];
    var R' := R + {i};
    forall S | ProperPart(S, R')
      ensures Linked(fs, S, R' - S)
    {
      if i in S {
        var SR := S - {i};
        if SR == {} {
          assert j in R' - S;
        } else if R - S == {} {
          assert false;
        } else {
          assert ProperPart(SR, R);
          var a, b :| a in SR && b in R - SR && 0 <= a < |fs| && 0 <= b < |fs| && fs[a] * fs[b] != {};
          assert a in S && b in R' - S;
        }
      } else {
        if S == R {
          assert i in R' - S;
          assert v in fs[j] * fs[i];
        } else {
          assert ProperPart(S, R);
          var a, b :| a in S && b in R - S && 0 <= a < |fs| && 0 <= b < |fs| && fs[a] * fs[b] != {};
          assert b in R' - S;
        }
      }
    }
  }

  /** The merged group R and the union U it spans. */
  ghost predicate Good(fs: seq<set<nat>>, U: set<nat>, R: set<nat>)
  {
    U == UnionOf(fs, R) && ConnectedSet(fs, R) && R <= AllIdx(|fs|)
  }

  /**
   * One pass: the faces it merges join R; if it merges none of L, none of
   * L meets the union.
   */
  /**
   * What a pass from a state promises: the merged faces join R into a
   * connected group, the kept ones stay distinct, and a pass that merges
   * nothing meets none of L.
   */
  ghost predicate PassFromOk(fs: seq<set<nat>>, U: set<nat>, kept: seq<nat>, L: seq<nat>, R: set<nat>)
    requires IndicesBelow(L, |fs|)
  {
    var st := PassFrom(fs, U, kept, L);
    var R' := R + (ElemSet(kept) + ElemSet(L) - ElemSet(st.L));
    Good(fs, st.U, R') && NoDupIdx(st.L) && ElemSet(st.L) <= ElemSet(kept) + ElemSet(L)
    && ElemSet(kept) <= ElemSet(st.L)
    && (|st.L| == |kept| + |L| ==> st.U == U && forall k :: 0 <= k < |L| ==> fs[L[k]] * U == {})
  }

  lemma {:induction false} PassFromInv(fs: seq<set<nat>>, U: set<nat>, kept: seq<nat>, L: seq<nat>, R: set<nat>)
    requires IndicesBelow(L, |fs|) && IndicesBelow(kept, |fs|)
    requires Good(fs, U, R)
    requires NoDupIdx(kept + L) && (ElemSet(kept) + ElemSet(L)) * R == {}
    ensures PassFromOk(fs, U, kept, L, R)
    decreases |L|, 1
  {
    if |L| == 0 {
      assert ElemSet(L) == {} && kept + L == kept;
      assert R + (ElemSet(kept) + ElemSet(L) - ElemSet(kept)) == R;
    } else if fs[L[0]] * U != {} {
      PassFromMerge(fs, U, kept, L, R);
    } else {
      PassFromKeep(fs, U, kept, L, R);
    }
  }

  /** The head of a duplicate-free kept + L is in neither kept nor the rest of L. */
  lemma HeadFresh(kept: seq<nat>, L: seq<nat>)
    requires NoDupIdx(kept + L) && |L| > 0
    ensures L[0] !in kept && L[0] !in L[1..] && L[0] in ElemSet(L)
    ensures kept + L == (kept + [L[0]]) + L[1..]
    ensures ElemSet(L) == {L[0]} + ElemSet(L[1..])
  {
    assert kept + L == (kept + [L[0]]) + L[1..];
    assert (kept + L)[|kept|] == L[0];
    forall k | 0 <= k < |kept|
      ensures kept[k] != L[0]
    {
      assert (kept + L)[k] == kept[k];
    }
    forall k | 0 <= k < |L| - 1
      ensures L[1..][k] != L[0]
    {
      assert (kept + L)[|kept| + 1 + k] == L[1..][k];
    }
    assert L == [L[0]] + L[1..];
  }

  /** Dropping the head of L from a duplicate-free kept + L keeps it duplicate-free. */
  lemma NoDupDrop(kept: seq<nat>, L: seq<nat>)
    requires NoDupIdx(kept + L) && |L| > 0
    ensures NoDupIdx(kept + L[1..])
  {
    forall a, b | 0 <= a < b < |kept + L[1..]|
      ensures (kept + L[1..])[a] != (kept + L[1..])[b]
    {
      var a' := if a < |kept| then a else a + 1;
      var b' := if b < |kept| then b else b + 1;
      assert (kept + L)[a'] == (kept + L[1..])[a];
      assert (kept + L)[b'] == (kept + L[1..])[b];
    }
  }

  /** The pass merges the head of L: it joins R. */
  lemma {:induction false} PassFromMerge(fs: seq<set<nat>>, U: set<nat>, kept: seq<nat>, L: seq<nat>, R: set<nat>)
    requires IndicesBelow(L, |fs|) && IndicesBelow(kept, |fs|)
    requires Good(fs, U, R)
    requires NoDupIdx(kept + L) && (ElemSet(kept) + ElemSet(L)) * R == {}
    requires |L| > 0 && fs[L[0]] * U != {}
    ensures PassFromOk(fs, U, kept, L, R)
    decreases |L|, 0
  {
    HeadFresh(kept, L);
    ConnectedExtend(fs, R, L[0]);
    UnionOfAdd(fs, R, L[0]);
    NoDupDrop(kept, L);
    PassFromInv(fs, U + fs[L[0]], kept, L[1..], R + {L[0]});
    var st := PassFrom(fs, U, kept, L);
    assert ElemSet(st.L) <= ElemSet(kept) + ElemSet(L[1..]);
    assert L[0] !in ElemSet(st.L);
    assert (R + {L[0]}) + (ElemSet(kept) + ElemSet(L[1..]) - ElemSet(st.L))
      == R + (ElemSet(kept) + ElemSet(L) - ElemSet(st.L));
    assert |st.L| <= |kept| + |L| - 1;
  }

  /** The pass keeps the head of L: it moves to the kept list. */
  lemma {:induction false} PassFromKeep(fs: seq<set<nat>>, U: set<nat>, kept: seq<nat>, L: seq<nat>, R: set<nat>)
    requires IndicesBelow(L, |fs|) && IndicesBelow(kept, |fs|)
    requires Good(fs, U, R)
    requires NoDupIdx(kept + L) && (ElemSet(kept) + ElemSet(L)) * R == {}
    requires |L| > 0 && fs[L[0]] * U == {}
    ensures PassFromOk(fs, U, kept, L, R)
    decreases |L|, 0
  {
    HeadFresh(kept, L);
    assert ElemSet(kept + [L[0]]) == ElemSet(kept) + {L[0]};
    PassFromInv(fs, U, kept + [L[0]], L[1..], R);
    var st := PassFrom(fs, U, kept, L);
    assert ElemSet(kept + [L[0]]) + ElemSet(L[1..]) == ElemSet(kept) + ElemSet(L);
    if |st.L| == |kept| + |L| {
      forall k | 0 <= k < |L|
        ensures fs[L[k]] * U == {}
      {
        if k > 0 {
          assert L[k] == L[1..][k - 1];
        }
      }
    }
  }

  predicate NoDupIdx(s: seq<nat>)
  {
    forall a, b :: 0 <= a < b < |s| ==> s[a] != s[b]
  }

  /** A pass over a non-empty list that merges nothing exhibits a split: the faces are not connected. */
  lemma StuckMeansSplit(fs: seq<set<nat>>, U: set<nat>, L: seq<nat>, R: set<nat>)
    requires Good(fs, U, R) && R != {} && |L| > 0 && IndicesBelow(L, |fs|)
    requires R + ElemSet(L) == AllIdx(|fs|) && R * ElemSet(L) == {}
    requires forall k :: 0 <= k < |L| ==> fs[L[k]] * U == {}
    ensures ProperPart(R, AllIdx(|fs|)) && !Linked(fs, R, AllIdx(|fs|) - R)
    ensures !Connected(fs)
  {
    var all := AllIdx(|fs|);
    assert L[0] in ElemSet(L);
    assert L[0] in all - R;
    forall a, b | a in R && b in all - R && 0 <= a < |fs| && 0 <= b < |fs|
      ensures fs[a] * fs[b] == {}
    {
      assert b in ElemSet(L);
      var k :| 0 <= k < |L| && L[k] == b;
      forall v | v in fs[a]
        ensures v !in fs[b]
      {
        assert v in UnionOf(fs, R);
        DisjointMember(fs[L[k]], U, v);
      }
    }
    assert ProperPart(R, all);
  }

  lemma DisjointMember(A: set<nat>, B: set<nat>, v: nat)
    requires A * B == {} && v in B
    ensures v !in A
  {
    assert v !in A * B;
  }

  /** The invariant of the pass loop: R merged, L the faces left, together all faces. */
  ghost predicate PassState(fs: seq<set<nat>>, U: set<nat>, L: seq<nat>, R: set<nat>)
  {
    IndicesBelow(L, |fs|) && Good(fs, U, R) && R != {} && NoDupIdx(L)
    && R + ElemSet(L) == AllIdx(|fs|) && R * ElemSet(L) == {}
  }

  /** One pass keeps the invariant; on connected faces it merges at least one face. */
  lemma PassStep(fs: seq<set<nat>>, U: set<nat>, L: seq<nat>, R: set<nat>)
    requires PassState(fs, U, L, R)
    ensures var st := PassFrom(fs, U, [], L);
      PassState(fs, st.U, st.L, R + (ElemSet(L) - ElemSet(st.L)))
      && (Connected(fs) && |L| > 0 ==> |st.L| < |L|)
  {
    assert [] + L == L;
    var none: seq<nat> := [];
    assert ElemSet(none) + ElemSet(L) == ElemSet(L);
    PassFromInv(fs, U, none, L, R);
    PassFromIndices(fs, U, none, L);
    var st := PassFrom(fs, U, [], L);
    if Connected(fs) && |L| > 0 && |st.L| == |L| {
      StuckMeansSplit(fs, U, L, R);
    }
  }

  /** Out of faces or out of passes: the state is final. */
  lemma PassesDone(fs: seq<set<nat>>, U: set<nat>, L: seq<nat>, budget: nat, R: set<nat>)
    requires PassState(fs, U, L, R) && (|L| == 0 || budget == 0)
    ensures Passes(fs, U, L, budget) == State(U, L)
    ensures Good(fs, U, AllIdx(|fs|) - ElemSet(L))
  {
    assert AllIdx(|fs|) - ElemSet(L) == R;
  }

  /**
   * What the passes promise from a state: the merged group stays connected
   * and, on connected faces, everything is merged within |L| passes.
   */
  ghost predicate PassesOk(fs: seq<set<nat>>, U: set<nat>, L: seq<nat>, budget: nat)
    requires IndicesBelow(L, |fs|)
  {
    var st := Passes(fs, U, L, budget);
    Good(fs, st.U, AllIdx(|fs|) - ElemSet(st.L))
    && (Connected(fs) && budget >= |L| ==> |st.L| == 0)
  }

  lemma {:induction false} PassesInv(fs: seq<set<nat>>, U: set<nat>, L: seq<nat>, budget: nat, R: set<nat>)
    requires PassState(fs, U, L, R)
    ensures PassesOk(fs, U, L, budget)
    decreases budget, 2
  {
    if |L| == 0 || budget == 0 {
      PassesDone(fs, U, L, budget, R);
    } else {
      PassesMore(fs, U, L, budget, R);
    }
  }

  lemma {:induction false} PassesMore(fs: seq<set<nat>>, U: set<nat>, L: seq<nat>, budget: nat, R: set<nat>)
    requires PassState(fs, U, L, R) && |L| > 0 && budget > 0
    ensures PassesOk(fs, U, L, budget)
    decreases budget, 1
  {
    PassesNext(fs, U, L, budget, R);
    PassesUnfold(fs, U, L, budget);
  }

  /** What one pass followed by the remaining passes needs of the state after the pass. */
  ghost predicate NextOk(fs: seq<set<nat>>, U: set<nat>, L: seq<nat>, budget: nat)
    requires budget > 0
  {
    IndicesBelow(L, |fs|) && |L| > 0
    && var st := PassFrom(fs, U, [], L);
    IndicesBelow(st.L, |fs|)
    && (Connected(fs) ==> |st.L| < |L|)
    && PassesOk(fs, st.U, st.L, budget - 1)
  }

  lemma {:induction false} PassesNext(fs: seq<set<nat>>, U: set<nat>, L: seq<nat>, budget: nat, R: set<nat>)
    requires PassState(fs, U, L, R) && |L| > 0 && budget > 0
    ensures NextOk(fs, U, L, budget)
    decreases budget, 0
  {
    var st := PassFrom(fs, U, [], L);
    PassStep(fs, U, L, R);
    PassFromIndices(fs, U, [], L);
    PassesInv(fs, st.U, st.L, budget - 1, R + (ElemSet(L) - ElemSet(st.L)));
  }

  /** One step of Passes, as a fact about PassesOk. */
  lemma PassesUnfold(fs: seq<set<nat>>, U: set<nat>, L: seq<nat>, budget: nat)
    requires budget > 0 && NextOk(fs, U, L, budget)
    ensures PassesOk(fs, U, L, budget)
  {
    var st := PassFrom(fs, U, [], L);
    assert Passes(fs, U, L, budget) == Passes(fs, st.U, st.L, budget - 1);
  }

  /**
   * check_connectivity's answer on non-empty faces: the faces are
   * connected and the union of their vertices passes Bitset::all().
   */
  lemma ConnectedResultMeaning(fs: seq<set<nat>>, nverts: nat, W: nat)
    requires W > 0 && |fs| > 0 && nverts > 0
    ensures ConnectedResult(fs, nverts, W) ==
      (Connected(fs) && AllPattern(BitsOfSet(UnionOf(fs, AllIdx(|fs|)), nverts), W))
  {
    FinalState(fs);
  }

  /** After the passes: every face merged exactly when the faces are connected. */
  lemma FinalState(fs: seq<set<nat>>)
    requires |fs| > 0
    ensures var st := Passes(fs, fs[|fs| - 1], Countdown(|fs| - 1), |fs| - 1);
      (|st.L| == 0 <==> Connected(fs))
      && (|st.L| == 0 ==> st.U == UnionOf(fs, AllIdx(|fs|)))
  {
    var m := |fs|;
    var L := Countdown(m - 1);
    UnionOfSingle(fs, m - 1);
    SingletonConnected(fs, m - 1);
    assert ElemSet(L) == AllIdx(m - 1) by {
      forall i | 0 <= i < m - 1
        ensures i in ElemSet(L)
      {
        assert L[m - 2 - i] == i;
      }
    }
    assert {m - 1} + ElemSet(L) == AllIdx(m);
    assert PassState(fs, fs[m - 1], L, {m - 1});
    PassesInv(fs, fs[m - 1], L, m - 1, {m - 1});
    var st := Passes(fs, fs[m - 1], L, m - 1);
    if |st.L| == 0 {
      assert AllIdx(m) - ElemSet(st.L) == AllIdx(m);
    }
  }

  /** Bitset::all() of a vertex set, when nverts is not a multiple of the word size. */
  lemma AllOfSet(U: set<nat>, nverts: nat, W: nat)
    requires W > 0 && nverts > 0 && nverts % W != 0
    ensures AllPattern(BitsOfSet(U, nverts), W) <==> forall v :: 0 <= v < nverts ==> v in U
  {
    var bits := BitsOfSet(U, nverts);
    AllMeansEveryBit(bits, W);
    forall v | 0 <= v < nverts
      ensures bits[v] == (v in U)
    {
    }
  }

  /**
   * With the vertex count not a multiple of the word size, all() means
   * "every vertex is used": the faces are connected and cover every vertex.
   */
  lemma ConnectedResultCovers(fs: seq<set<nat>>, nverts: nat, W: nat)
    requires W > 0 && |fs| > 0 && nverts > 0 && nverts % W != 0
    ensures ConnectedResult(fs, nverts, W) ==
      (Connected(fs) && forall v :: 0 <= v < nverts ==> v in UnionOf(fs, AllIdx(|fs|)))
  {
    ConnectedResultMeaning(fs, nverts, W);
    AllOfSet(UnionOf(fs, AllIdx(|fs|)), nverts, W);
  }

  // ---------------------------------------------------------------------
  // check_connectivity over Bitset objects

  /** Each face's vertex indices as a set. */
  function Sets(faces: seq<seq<nat>>): (fs: seq<set<nat>>)
    ensures |fs| == |faces|
    ensures forall k :: 0 <= k < |faces| ==> fs[k] == ElemSet(faces[k])
  {
    seq(|faces|, k requires 0 <= k < |faces| => ElemSet(faces[k]))
  }

  predicate AllInRange(faces: seq<seq<nat>>, n: nat)
  {
    forall k, j :: 0 <= k < |faces| && 0 <= j < |faces[k]| ==> faces[k][j] < n
  }

  /**
   * Where the source's behaviour is defined: with faces present but no
   * vertices, some face must name a vertex (Bitset::set then throws);
   * otherwise Bitset::all() would run on a Bitset of no words.
   */
  predicate Defined(faces: seq<seq<nat>>, nverts: nat)
  {
    |faces| == 0 || nverts > 0 || exists k :: 0 <= k < |faces| && |faces[k]| > 0
  }

  /** The Bitset b holds the vertex set S. */
  ghost predicate Holds(b: Bitset, S: set<nat>, n: nat, W: nat)
    reads b.words
  {
    b.Valid() && b.bitcnt == n && b.wordSize == W && b.Bits() == BitsOfSet(S, n)
  }

  lemma InRangeSets(faces: seq<seq<nat>>, n: nat)
    requires AllInRange(faces, n)
    ensures SetsBelow(Sets(faces), n)
  {
    forall k, v | 0 <= k < |faces| && v in Sets(faces)[k]
      ensures v < n
    {
      var j :| 0 <= j < |faces[k]| && faces[k][j] == v;
    }
  }

  lemma DefinedMeansVertices(faces: seq<seq<nat>>, nverts: nat)
    requires |faces| > 0 && Defined(faces, nverts) && AllInRange(faces, nverts)
    ensures nverts > 0
  {
    if exists k :: 0 <= k < |faces| && |faces[k]| > 0 {
      var k :| 0 <= k < |faces| && |faces[k]| > 0;
      assert faces[k][0] < nverts;
    }
  }

  /** `(*c & bs_union).any()` on the sets the two Bitsets hold. */
  lemma MeetsIffCommonBit(A: set<nat>, B: set<nat>, n: nat, inter: seq<bool>)
    requires forall v :: v in A ==> v < n
    requires |inter| == n
    requires forall i :: 0 <= i < n ==> inter[i] == (i in A && i in B)
    ensures (exists i :: 0 <= i < n && inter[i]) <==> A * B != {}
  {
    if A * B != {} {
      var v :| v in A * B;
      assert inter[v];
    }
    if exists i :: 0 <= i < n && inter[i] {
      var i :| 0 <= i < n && inter[i];
      assert i in A * B;
    }
  }

  /** `bs.reset(); for (auto v : f.vertices) bs.set(v);` for one face. */
  method FaceBits(bs: Bitset, face: seq<nat>) returns (r: Outcome<BitsetError>)
    requires bs.Valid()
    modifies bs.words
    ensures bs.Valid()
    ensures (forall i :: 0 <= i < |face| ==> face[i] < bs.bitcnt) ==>
      r == Pass && bs.Bits() == BitsOfSet(ElemSet(face), bs.bitcnt)
    ensures !(forall i :: 0 <= i < |face| ==> face[i] < bs.bitcnt) ==>
      r == Fail(OutOfRange(IndexMessage(bs.bitcnt)))
  {
    bs.Reset();
    assert bs.Bits() == BitsOfSet({}, bs.bitcnt);
    var j := 0;
    while j < |face|
      invariant 0 <= j <= |face|
      invariant bs.Valid()
      invariant bs.Bits() == BitsOfSet(ElemSet(face[..j]), bs.bitcnt)
      invariant forall i :: 0 <= i < j ==> face[i] < bs.bitcnt
    {
      var o := bs.Set(face[j], true);
      if o.Fail? {
        return o;
      }
      assert ElemSet(face[..j + 1]) == ElemSet(face[..j]) + {face[j]} by {
        assert face[..j + 1] == face[..j] + [face[j]];
      }
      j := j + 1;
    }
    assert face[..j] == face;
    return Pass;
  }

  /** bs filled with the face's vertices, and the copy `connections.emplace_front(bs)` pushes. */
  method FaceConnection(bs: Bitset, face: seq<nat>) returns (r: Result<Bitset, BitsetError>)
    requires bs.Valid()
    modifies bs.words
    ensures bs.Valid()
    ensures r.Failure? <==> !(forall i :: 0 <= i < |face| ==> face[i] < bs.bitcnt)
    ensures r.Failure? ==> r.error == OutOfRange(IndexMessage(bs.bitcnt))
    ensures r.Success? ==> fresh(r.value.words) && Holds(r.value, ElemSet(face), bs.bitcnt, bs.wordSize)
  {
    var o := FaceBits(bs, face);
    if o.Fail? {
      return Failure(o.error);
    }
    var copy := new Bitset.Copy(bs);
    return Success(copy);
  }

  /** A face with a vertex index out of range. */
  lemma OutOfRangeFace(faces: seq<seq<nat>>, nverts: nat, k: nat)
    requires k < |faces| && !(forall i :: 0 <= i < |faces[k]| ==> faces[k][i] < nverts)
    ensures !AllInRange(faces, nverts)
  {
    var i :| 0 <= i < |faces[k]| && faces[k][i] >= nverts;
  }

  /**
   * The first loop of check_connectivity: one Bitset per face, each pushed
   * to the front of `connections`.
   */
  method BuildConnections(faces: seq<seq<nat>>, nverts: nat, W: nat) returns (r: Result<seq<Bitset>, BitsetError>)
    requires W > 0
    ensures !AllInRange(faces, nverts) ==> r == Failure(OutOfRange(IndexMessage(nverts)))
    ensures AllInRange(faces, nverts) ==> r.Success? && |r.value| == |faces|
    ensures r.Success? ==> forall c :: 0 <= c < |r.value| ==>
      Holds(r.value[c], ElemSet(faces[|faces| - 1 - c]), nverts, W)
  {
    var bs := new Bitset(nverts, W);
    var connections: seq<Bitset> := [];
    var k := 0;
    while k < |faces|
      invariant 0 <= k <= |faces|
      invariant bs.Valid() && bs.bitcnt == nverts && bs.wordSize == W
      invariant |connections| == k
      invariant forall c :: 0 <= c < k ==> Holds(connections[c], ElemSet(faces[k - 1 - c]), nverts, W)
      invariant forall c :: 0 <= c < k ==> connections[c].words != bs.words
      invariant AllInRange(faces[..k], nverts)
    {
      var c := FaceConnection(bs, faces[k]);
      if c.Failure? {
        OutOfRangeFace(faces, nverts, k);
        return Failure(c.error);
      }
      connections := [c.value] + connections;
      assert faces[..k + 1] == faces[..k] + [faces[k]];
      k := k + 1;
    }
    assert faces[..k] == faces;
    return Success(connections);
  }

  /**
   * One pass of the merge loop: every connection meeting the union is
   * or-ed into it and erased, the others are kept in order.
   */
  method MergePass(connections: seq<Bitset>, bsUnion: Bitset, nverts: nat, W: nat,
                   ghost fs: seq<set<nat>>, ghost U: set<nat>, ghost L: seq<nat>)
    returns (kept: seq<Bitset>, ghost U': set<nat>, ghost L': seq<nat>)
    requires Holds(bsUnion, U, nverts, W) && SetsBelow(fs, nverts)
    requires |connections| == |L| && IndicesBelow(L, |fs|)
    requires forall c :: 0 <= c < |L| ==> Holds(connections[c], fs[L[c]], nverts, W)
    requires forall c :: 0 <= c < |L| ==> connections[c].words != bsUnion.words
    modifies bsUnion.words
    ensures State(U', L') == PassFrom(fs, U, [], L)
    ensures Holds(bsUnion, U', nverts, W)
    ensures |kept| == |L'| && IndicesBelow(L', |fs|)
    ensures forall c :: 0 <= c < |L'| ==> Holds(kept[c], fs[L'[c]], nverts, W)
    ensures forall c :: 0 <= c < |L'| ==> kept[c].words != bsUnion.words
  {
    kept := [];
    U', L' := U, [];
    var c := 0;
    while c < |connections|
      invariant 0 <= c <= |connections|
      invariant Holds(bsUnion, U', nverts, W)
      invariant |kept| == |L'| && IndicesBelow(L', |fs|)
      invariant forall x :: 0 <= x < |kept| ==> Holds(kept[x], fs[L'[x]], nverts, W)
      invariant forall x :: 0 <= x < |kept| ==> kept[x].words != bsUnion.words
      invariant forall x :: 0 <= x < |L| ==> Holds(connections[x], fs[L[x]], nverts, W)
      invariant PassFrom(fs, U', L', L[c..]) == PassFrom(fs, U, [], L)
    {
      var any := MergeOne(connections[c], bsUnion, nverts, W, fs[L[c]], U');
      assert L[c..][1..] == L[c + 1..];
      if any {
        U' := U' + fs[L[c]];
      } else {
        kept := kept + [connections[c]];
        L' := L' + [L[c]];
      }
      c := c + 1;
    }
    assert L[c..] == [];
  }

  /** One step of the pass: merge the connection into the union when they share a vertex. */
  method MergeOne(conn: Bitset, bsUnion: Bitset, nverts: nat, W: nat, ghost S: set<nat>, ghost U: set<nat>)
    returns (merged: bool)
    requires Holds(bsUnion, U, nverts, W) && Holds(conn, S, nverts, W)
    requires conn.words != bsUnion.words && forall v :: v in S ==> v < nverts
    modifies bsUnion.words
    ensures merged == (S * U != {})
    ensures Holds(bsUnion, if merged then U + S else U, nverts, W)
  {
    var inter := conn.Intersection(bsUnion);
    merged := inter.value.Any();
    MeetsIffCommonBit(S, U, nverts, inter.value.Bits());
    if merged {
      var o := bsUnion.UnionWith(conn);
      assert bsUnion.Bits() == BitsOfSet(U + S, nverts);
    }
  }

  /**
   * The merge loop of check_connectivity: passes over the connections until
   * none is left or a pass has been made per connection.
   */
  method MergeAll(connections: seq<Bitset>, bsUnion: Bitset, nverts: nat, W: nat, ghost fs: seq<set<nat>>)
    returns (left: seq<Bitset>)
    requires |fs| > 0 && SetsBelow(fs, nverts) && Holds(bsUnion, fs[|fs| - 1], nverts, W)
    requires |connections| == |fs| - 1
    requires forall c :: 0 <= c < |connections| ==> Holds(connections[c], fs[Countdown(|fs| - 1)[c]], nverts, W)
    requires forall c :: 0 <= c < |connections| ==> connections[c].words != bsUnion.words
    modifies bsUnion.words
    ensures var st := Passes(fs, fs[|fs| - 1], Countdown(|fs| - 1), |fs| - 1);
      Holds(bsUnion, st.U, nverts, W) && |left| == |st.L|
  {
    ghost var m := |fs|;
    left := connections;
    ghost var L := Countdown(m - 1);
    ghost var U := fs[m - 1];
    var nconn: nat := |left|;
    while |left| > 0 && nconn > 0
      invariant Holds(bsUnion, U, nverts, W)
      invariant |left| == |L| && IndicesBelow(L, m)
      invariant forall c :: 0 <= c < |L| ==> Holds(left[c], fs[L[c]], nverts, W)
      invariant forall c :: 0 <= c < |L| ==> left[c].words != bsUnion.words
      invariant Passes(fs, U, L, nconn) == Passes(fs, fs[m - 1], Countdown(m - 1), m - 1)
      decreases nconn
    {
      PassFromIndices(fs, U, [], L);
      assert Passes(fs, U, L, nconn) == Passes(fs, PassFrom(fs, U, [], L).U, PassFrom(fs, U, [], L).L, nconn - 1);
      nconn := nconn - 1;
      left, U, L := MergePass(left, bsUnion, nverts, W, fs, U, L);
    }
  }

  /**
   * Model::check_connectivity. The faces are given as their vertex lists in
   * the set's iteration order; W is the Bitset word width.
   */
  method CheckConnectivity(faces: seq<seq<nat>>, nverts: nat, W: nat) returns (r: Result<bool, BitsetError>)
    requires W > 0 && Defined(faces, nverts)
    ensures |faces| == 0 ==> r == Success(nverts == 0)
    ensures !AllInRange(faces, nverts) ==> r == Failure(OutOfRange(IndexMessage(nverts)))
    ensures |faces| > 0 && AllInRange(faces, nverts) ==>
      nverts > 0 && r == Success(ConnectedResult(Sets(faces), nverts, W))
  {
    if |faces| == 0 {
      return Success(nverts == 0);
    }
    var built := BuildConnections(faces, nverts, W);
    if built.Failure? {
      return Failure(built.error);
    }
    ghost var fs := Sets(faces);
    ghost var m := |faces|;
    InRangeSets(faces, nverts);
    DefinedMeansVertices(faces, nverts);
    var connections := built.value;
    var bsUnion := new Bitset.Copy(connections[0]);
    connections := connections[1..];
    connections := MergeAll(connections, bsUnion, nverts, W, fs);
    var all := bsUnion.All();
    return Success(|connections| == 0 && all);
  }
}
