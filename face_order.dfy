// Face::operator< (src/model/face.cpp, src/model.cpp): two faces are
// compared through the std::set<size_t> of their vertex indices. The left
// face is less when its set is lexicographically below the right one AND
// the two sets share fewer than three indices. Here a std::set<size_t> is a
// strictly increasing sequence.
module FaceOrder {

  predicate StrictlySorted(s: seq<nat>)
  {
    forall i, j :: 0 <= i < j < |s| ==> s[i] < s[j]
  }

  function ElemSet(s: seq<nat>): set<nat>
  {
    set x | x in s
  }

  /** std::set<size_t>::insert on the sorted representation. */
  function InsertSorted(s: seq<nat>, x: nat): (r: seq<nat>)
    requires StrictlySorted(s)
    ensures StrictlySorted(r)
    ensures forall y :: y in r <==> y in s || y == x
  {
    if |s| == 0 then [x]
    else if x < s[0] then [x] + s
    else if x == s[0] then s
    else
      var rest := InsertSorted(s[1..], x);
      assert forall y :: y in rest ==> s[0] < y;
      SortedCons(s[0], rest);
      [s[0]] + rest
  }

  /** Putting an index below all others in front keeps the sequence sorted. */
  lemma SortedCons(a: nat, rest: seq<nat>)
    requires StrictlySorted(rest) && forall y :: y in rest ==> a < y
    ensures StrictlySorted([a] + rest)
  {
    var r := [a] + rest;
    forall i, j | 0 <= i < j < |r|
      ensures r[i] < r[j]
    {
      assert r[j] == rest[j - 1];
      if i > 0 {
        assert r[i] == rest[i - 1];
      } else {
        assert rest[j - 1] in rest;
      }
    }
  }

  /** std::set<size_t>(v.cbegin(), v.cend()): v's indices, ascending, once each. */
  function SortedSet(v: seq<nat>): (r: seq<nat>)
    ensures StrictlySorted(r)
    ensures forall y :: y in r <==> y in v
  {
    if |v| == 0 then []
    else
      var r := InsertSorted(SortedSet(v[..|v| - 1]), v[|v| - 1]);
      assert forall y :: y in v <==> y in v[..|v| - 1] || y == v[|v| - 1] by {
        assert v == v[..|v| - 1] + [v[|v| - 1]];
      }
      r
  }

  /** std::lexicographical_compare, which std::set's operator< uses. */
  function LexLess(a: seq<nat>, b: seq<nat>): bool
  {
    if |b| == 0 then false
    else if |a| == 0 then true
    else if a[0] != b[0] then a[0] < b[0]
    else LexLess(a[1..], b[1..])
  }

  /** The size of set_intersection of the two index sets. */
  function SharedCount(a: seq<nat>, b: seq<nat>): nat
  {
    |ElemSet(a) * ElemSet(b)|
  }

  /** Face::operator< on the faces' vertex lists. */
  predicate FaceLess(a: seq<nat>, b: seq<nat>)
  {
    LexLess(SortedSet(a), SortedSet(b)) && SharedCount(SortedSet(a), SortedSet(b)) < 3
  }

  /** What std::set treats as "the same key": neither face is less. */
  predicate Equivalent(a: seq<nat>, b: seq<nat>)
  {
    !FaceLess(a, b) && !FaceLess(b, a)
  }

  // ---------------------------------------------------------------------
  // The lexicographic order is a strict total order

  lemma {:induction false} LexLessIrreflexive(a: seq<nat>)
    ensures !LexLess(a, a)
  {
    if |a| > 0 {
      LexLessIrreflexive(a[1..]);
    }
  }

  lemma {:induction false} LexLessAsymmetric(a: seq<nat>, b: seq<nat>)
    ensures LexLess(a, b) ==> !LexLess(b, a)
  {
    if |a| > 0 && |b| > 0 && a[0] == b[0] {
      LexLessAsymmetric(a[1..], b[1..]);
    }
  }

  lemma {:induction false} LexLessTransitive(a: seq<nat>, b: seq<nat>, c: seq<nat>)
    requires LexLess(a, b) && LexLess(b, c)
    ensures LexLess(a, c)
  {
    if |a| > 0 && a[0] == b[0] && b[0] == c[0] {
      LexLessTransitive(a[1..], b[1..], c[1..]);
    }
  }

  lemma {:induction false} LexLessTotal(a: seq<nat>, b: seq<nat>)
    requires a != b
    ensures LexLess(a, b) || LexLess(b, a)
  {
    if |a| > 0 && |b| > 0 && a[0] == b[0] {
      LexLessTotal(a[1..], b[1..]);
    }
  }

  // ---------------------------------------------------------------------
  // The sorted representation is unique

  lemma {:induction false} SortedUnique(a: seq<nat>, b: seq<nat>)
    requires StrictlySorted(a) && StrictlySorted(b)
    requires forall y :: y in a <==> y in b
    ensures a == b
  {
    if |a| > 0 && |b| > 0 {
      assert a[0] in b && b[0] in a;
      assert a[0] == b[0];
      forall y
        ensures y in a[1..] <==> y in b[1..]
      {
        if y in a[1..] {
          assert y in b && y != b[0];
        }
        if y in b[1..] {
          assert y in a && y != a[0];
        }
      }
      SortedUnique(a[1..], b[1..]);
      assert a == [a[0]] + a[1..] && b == [b[0]] + b[1..];
    } else if |a| > 0 {
      HeadIn(a);
      assert false;
    } else if |b| > 0 {
      HeadIn(b);
      assert false;
    }
  }

  lemma HeadIn(s: seq<nat>)
    ensures |s| > 0 ==> s[0] in s
  {
  }

  /** Two vertex lists with the same indices have the same std::set. */
  lemma SameElementsSameSet(a: seq<nat>, b: seq<nat>)
    requires ElemSet(a) == ElemSet(b)
    ensures SortedSet(a) == SortedSet(b)
  {
    forall y
      ensures y in SortedSet(a) <==> y in SortedSet(b)
    {
      assert y in a <==> y in ElemSet(a);
      assert y in b <==> y in ElemSet(b);
    }
    SortedUnique(SortedSet(a), SortedSet(b));
  }

  /** A list that is already ascending is its own std::set. */
  lemma SortedSetOfSorted(v: seq<nat>)
    requires StrictlySorted(v)
    ensures SortedSet(v) == v
  {
    SortedUnique(SortedSet(v), v);
  }

  lemma ElemSetOfSortedSet(v: seq<nat>)
    ensures ElemSet(SortedSet(v)) == ElemSet(v)
  {
  }

  // ---------------------------------------------------------------------
  // Properties of operator<

  lemma FaceLessIrreflexive(a: seq<nat>)
    ensures !FaceLess(a, a)
  {
    LexLessIrreflexive(SortedSet(a));
  }

  lemma FaceLessAsymmetric(a: seq<nat>, b: seq<nat>)
    ensures FaceLess(a, b) ==> !FaceLess(b, a)
  {
    LexLessAsymmetric(SortedSet(a), SortedSet(b));
  }

  /** Faces sharing three or more vertices are never less than each other. */
  lemma SharedThreeIncomparable(a: seq<nat>, b: seq<nat>)
    requires SharedCount(SortedSet(a), SortedSet(b)) >= 3
    ensures !FaceLess(a, b) && !FaceLess(b, a)
  {
    assert ElemSet(SortedSet(a)) * ElemSet(SortedSet(b)) == ElemSet(SortedSet(b)) * ElemSet(SortedSet(a));
  }

  /**
   * Two faces are equivalent exactly when they have the same vertex set or
   * share at least three vertices.
   */
  lemma EquivalentMeans(a: seq<nat>, b: seq<nat>)
    ensures Equivalent(a, b) <==>
      ElemSet(a) == ElemSet(b) || SharedCount(SortedSet(a), SortedSet(b)) >= 3
  {
    var sa, sb := SortedSet(a), SortedSet(b);
    assert ElemSet(sa) * ElemSet(sb) == ElemSet(sb) * ElemSet(sa);
    ElemSetOfSortedSet(a);
    ElemSetOfSortedSet(b);
    if ElemSet(a) == ElemSet(b) {
      SameElementsSameSet(a, b);
      LexLessIrreflexive(sa);
    } else if SharedCount(sa, sb) < 3 {
      assert sa != sb;
      LexLessTotal(sa, sb);
    }
  }

  lemma SortedExamples()
    ensures SortedSet([0, 1, 2]) == [0, 1, 2]
    ensures SortedSet([0, 1, 2, 3, 4]) == [0, 1, 2, 3, 4]
    ensures SortedSet([2, 3, 4]) == [2, 3, 4]
  {
    SortedSetOfSorted([0, 1, 2]);
    SortedSetOfSorted([0, 1, 2, 3, 4]);
    SortedSetOfSorted([2, 3, 4]);
  }

  lemma SharedExamples()
    ensures SharedCount([0, 1, 2], [0, 1, 2, 3, 4]) == 3
    ensures SharedCount([0, 1, 2, 3, 4], [0, 1, 2]) == 3
    ensures SharedCount([0, 1, 2, 3, 4], [2, 3, 4]) == 3
    ensures SharedCount([2, 3, 4], [0, 1, 2, 3, 4]) == 3
    ensures SharedCount([0, 1, 2], [2, 3, 4]) == 1
  {
    var a, b, c: seq<nat> := [0, 1, 2], [0, 1, 2, 3, 4], [2, 3, 4];
    assert ElemSet(a) == {0, 1, 2};
    assert ElemSet(b) == {0, 1, 2, 3, 4};
    assert ElemSet(c) == {2, 3, 4};
    assert ElemSet(a) * ElemSet(b) == {0, 1, 2};
    assert ElemSet(b) * ElemSet(a) == {0, 1, 2};
    assert ElemSet(b) * ElemSet(c) == {2, 3, 4};
    assert ElemSet(c) * ElemSet(b) == {2, 3, 4};
    assert ElemSet(a) * ElemSet(c) == {2};
  }

  /**
   * Equivalence is not transitive, so operator< is not a strict weak
   * order: {0,1,2} ~ {0,1,2,3,4} ~ {2,3,4}, yet {0,1,2} < {2,3,4}.
   */
  lemma NotStrictWeakOrder()
    ensures Equivalent([0, 1, 2], [0, 1, 2, 3, 4])
    ensures Equivalent([0, 1, 2, 3, 4], [2, 3, 4])
    ensures FaceLess([0, 1, 2], [2, 3, 4])
  {
    SortedExamples();
    SharedExamples();
    assert LexLess([0, 1, 2], [2, 3, 4]);
  }
}
