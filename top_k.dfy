/**
 * The top-K selector: pair each weight with its index, sort the pairs by
 * weight, highest first, with a stable sort, and keep the indices of the
 * first K. The comparator looks at weights only; the tie-break by
 * ascending index comes from stability, and is proved here rather than
 * built into the comparison.
 */
module TopKSelector {

  /** A weight together with its position in the weight row. */
  datatype Ranked = Ranked(weight: real, index: nat)

  /** `weights.map((weight, index) => ({ weight, index }))` */
  function Pairs(weights: seq<real>): (p: seq<Ranked>)
    ensures |p| == |weights|
    ensures forall i :: 0 <= i < |weights| ==> p[i] == Ranked(weights[i], i)
  {
    seq(|weights|, i requires 0 <= i < |weights| => Ranked(weights[i], i))
  }

  /**
   * Insert p into s behind every element whose weight is at least p's, which
   * is where a stable sort puts an element that came after all of s.
   */
  function InsertByWeight(s: seq<Ranked>, p: Ranked): seq<Ranked>
  {
    if s == [] || s[|s| - 1].weight >= p.weight then s + [p]
    else InsertByWeight(s[..|s| - 1], p) + [s[|s| - 1]]
  }

  /** Stable sort by weight, descending: insertion sort taking the elements left to right. */
  function SortByWeight(s: seq<Ranked>): seq<Ranked>
  {
    if s == [] then []
    else InsertByWeight(SortByWeight(s[..|s| - 1]), s[|s| - 1])
  }

  lemma {:induction false} InsertPermutes(s: seq<Ranked>, p: Ranked)
    ensures multiset(InsertByWeight(s, p)) == multiset(s) + multiset{p}
  {
    if !(s == [] || s[|s| - 1].weight >= p.weight) {
      assert s == s[..|s| - 1] + [s[|s| - 1]];
      InsertPermutes(s[..|s| - 1], p);
    }
  }

  /** The sort is a permutation of its input. */
  lemma {:induction false} SortPermutes(s: seq<Ranked>)
    ensures multiset(SortByWeight(s)) == multiset(s)
  {
    if s != [] {
      assert s == s[..|s| - 1] + [s[|s| - 1]];
      SortPermutes(s[..|s| - 1]);
      InsertPermutes(SortByWeight(s[..|s| - 1]), s[|s| - 1]);
    }
  }

  /** a comes before b in the ranking: a higher weight, or an equal weight and a lower index. */
  predicate Precedes(a: Ranked, b: Ranked)
  {
    a.weight > b.weight || (a.weight == b.weight && a.index < b.index)
  }

  predicate Sorted(s: seq<Ranked>)
  {
    forall i, j :: 0 <= i < j < |s| ==> Precedes(s[i], s[j])
  }

  predicate AscendingIndices(s: seq<Ranked>)
  {
    forall i, j :: 0 <= i < j < |s| ==> s[i].index < s[j].index
  }

  lemma {:induction false} InsertSorted(s: seq<Ranked>, p: Ranked)
    requires Sorted(s)
    requires forall x :: x in s ==> x.index < p.index
    ensures Sorted(InsertByWeight(s, p))
  {
    if s == [] || s[|s| - 1].weight >= p.weight {
      forall i | 0 <= i < |s| ensures Precedes(s[i], p) {
        if i < |s| - 1 {
          assert Precedes(s[i], s[|s| - 1]);
        }
        assert s[i] in s;
      }
    } else {
      var init, last := s[..|s| - 1], s[|s| - 1];
      assert forall x :: x in init ==> x in s;
      InsertSorted(init, p);
      InsertPermutes(init, p);
      var r := InsertByWeight(init, p);
      forall x | x in r ensures Precedes(x, last) {
        assert x in multiset(r);
        if x != p {
          assert x in init;
          var i :| 0 <= i < |init| && init[i] == x;
          assert Precedes(s[i], s[|s| - 1]);
        }
      }
    }
  }

  /** Sorting pairs that start in ascending index order ranks them strictly. */
  lemma {:induction false} SortSorted(s: seq<Ranked>)
    requires AscendingIndices(s)
    ensures Sorted(SortByWeight(s))
  {
    if s != [] {
      var init, last := s[..|s| - 1], s[|s| - 1];
      SortSorted(init);
      SortPermutes(init);
      var sorted := SortByWeight(init);
      forall x | x in sorted ensures x.index < last.index {
        assert x in multiset(init);
        var i :| 0 <= i < |init| && init[i] == x;
      }
      InsertSorted(sorted, last);
    }
  }

  function Take<T>(s: seq<T>, k: nat): (r: seq<T>)
    ensures |r| == if k < |s| then k else |s|
    ensures r == s[..|r|]
  {
    if k < |s| then s[..k] else s
  }

  function Indices(s: seq<Ranked>): (r: seq<nat>)
    ensures |r| == |s| && forall i :: 0 <= i < |s| ==> r[i] == s[i].index
  {
    seq(|s|, i requires 0 <= i < |s| => s[i].index)
  }

  /** The indices of the k highest weights, best first (`sort`, `slice(0, k)`, `map`). */
  function TopK(weights: seq<real>, k: nat): seq<nat>
  {
    Indices(Take(SortByWeight(Pairs(weights)), k))
  }

  /** The ranking among indices of a weight row. */
  predicate RanksBefore(weights: seq<real>, i: nat, j: nat)
  {
    i < |weights| && j < |weights| &&
    (weights[i] > weights[j] || (weights[i] == weights[j] && i < j))
  }

  /** Every element of the sorted pairs is the pair of its own index, and every index is there. */
  lemma SortedPairsAreThePairs(weights: seq<real>)
    ensures |SortByWeight(Pairs(weights))| == |weights|
    ensures forall x :: x in SortByWeight(Pairs(weights)) <==>
      x.index < |weights| && x == Ranked(weights[x.index], x.index)
  {
    var p, sorted := Pairs(weights), SortByWeight(Pairs(weights));
    SortPermutes(p);
    assert |sorted| == |multiset(sorted)| == |multiset(p)| == |p|;
    forall x: Ranked ensures x in sorted <==> x in p {
      assert x in sorted <==> x in multiset(sorted);
      assert x in p <==> x in multiset(p);
    }
    forall x: Ranked | x.index < |weights| && x == Ranked(weights[x.index], x.index) ensures x in p {
      assert p[x.index] == x;
    }
  }

  /**
   * The top-K contract: min(k, |weights|) distinct indices in range, in
   * ranking order (weights never increase; equal weights by ascending index),
   * and no left-out index outranks a chosen one.
   */
  lemma TopKSpec(weights: seq<real>, k: nat)
    ensures |TopK(weights, k)| == if k < |weights| then k else |weights|
    ensures forall i :: 0 <= i < |TopK(weights, k)| ==> TopK(weights, k)[i] < |weights|
    ensures forall i, j :: 0 <= i < j < |TopK(weights, k)| ==>
      RanksBefore(weights, TopK(weights, k)[i], TopK(weights, k)[j])
    ensures forall i, j :: 0 <= i < |TopK(weights, k)| && 0 <= j < |TopK(weights, k)| && i != j ==>
      TopK(weights, k)[i] != TopK(weights, k)[j]
    ensures forall c, e :: c in TopK(weights, k) && 0 <= e < |weights| && e !in TopK(weights, k) ==>
      RanksBefore(weights, c, e)
  {
    var sorted := SortByWeight(Pairs(weights));
    SortSorted(Pairs(weights));
    SortedPairsAreThePairs(weights);
    var r := TopK(weights, k);
    var m := |r|;
    assert m <= |sorted|;
    assert forall i :: 0 <= i < m ==> r[i] == sorted[i].index;
    forall i | 0 <= i < |sorted| ensures sorted[i] == Ranked(weights[sorted[i].index], sorted[i].index)
      && sorted[i].index < |weights|
    {
      assert sorted[i] in sorted;
    }
    forall i, j | 0 <= i < j < m ensures RanksBefore(weights, r[i], r[j]) {
      assert Precedes(sorted[i], sorted[j]);
    }
    forall i, j | 0 <= i < m && 0 <= j < m && i != j ensures r[i] != r[j] {
      if i < j {
        assert RanksBefore(weights, r[i], r[j]);
      } else {
        assert RanksBefore(weights, r[j], r[i]);
      }
    }
    forall c, e | c in r && 0 <= e < |weights| && e !in r ensures RanksBefore(weights, c, e) {
      var i :| 0 <= i < m && r[i] == c;
      var x := Ranked(weights[e], e);
      assert x in sorted;
      var j :| 0 <= j < |sorted| && sorted[j] == x;
      assert Precedes(sorted[i], sorted[j]);
    }
  }

  /**
   * Where InsertByWeight puts p: at the slot j that has only smaller
   * weights to its right and, unless it is the front, a weight at least
   * p's just to its left.
   */
  lemma {:induction false} InsertAt(s: seq<Ranked>, p: Ranked, j: nat)
    requires j <= |s|
    requires forall k :: j <= k < |s| ==> s[k].weight < p.weight
    requires j == 0 || s[j - 1].weight >= p.weight
    ensures InsertByWeight(s, p) == s[..j] + [p] + s[j..]
  {
    if j < |s| {
      var init := s[..|s| - 1];
      InsertAt(init, p, j);
      assert init[..j] == s[..j];
      assert s[j..] == init[j..] + [s[|s| - 1]];
    }
  }

  /**
   * One step of the in-place insertion sort: with a[..i] already sorted,
   * a[i] moves left past every element of strictly smaller weight and stops
   * behind the first one whose weight is at least its own.
   */
  method InsertInPlace(a: array<Ranked>, i: nat)
    requires i < a.Length
    modifies a
    ensures a[..i + 1] == InsertByWeight(old(a[..i]), old(a[i]))
    ensures a[i + 1..] == old(a[i + 1..])
  {
    var p := a[i];
    ghost var sorted := a[..i];
    var j := i;
    while j > 0 && a[j - 1].weight < p.weight
      invariant 0 <= j <= i
      invariant forall k :: 0 <= k < j ==> a[k] == sorted[k]
      invariant forall k :: j < k <= i ==> a[k] == sorted[k - 1]
      invariant forall k :: i < k < a.Length ==> a[k] == old(a[k])
      invariant forall k :: j <= k < i ==> sorted[k].weight < p.weight
    {
      a[j] := a[j - 1];
      j := j - 1;
    }
    a[j] := p;
    InsertAt(sorted, p, j);
    assert a[..i + 1] == sorted[..j] + [p] + sorted[j..];
  }

  /**
   * A stable sort of the pairs in place by weight, highest first: the
   * effect `sort((a, b) => b.weight - a.weight)` has on the pair array.
   */
  method SortInPlace(a: array<Ranked>)
    modifies a
    ensures a[..] == SortByWeight(old(a[..]))
  {
    ghost var input := a[..];
    var i := 0;
    while i < a.Length
      invariant 0 <= i <= a.Length
      invariant a[..i] == SortByWeight(input[..i])
      invariant a[i..] == input[i..]
    {
      assert input[..i + 1][..i] == input[..i];
      assert a[i] == input[i];
      InsertInPlace(a, i);
      i := i + 1;
    }
    assert input[..a.Length] == input;
  }

  /** The pipeline at the heart of the connector pass, over an array sorted in place. */
  method TopKIndices(weights: seq<real>, k: nat) returns (r: seq<nat>)
    ensures r == TopK(weights, k)
  {
    var a := new Ranked[|weights|](i requires 0 <= i < |weights| => Ranked(weights[i], i));
    assert a[..] == Pairs(weights);
    SortInPlace(a);
    r := Indices(Take(a[..], k));
  }

  /** Ties keep index order: the two 0.9 weights come out as 1 then 2. */
  lemma TopKTieExample()
    ensures TopK([0.2, 0.9, 0.9, 0.1], 2) == [1, 2]
  {
    var p0, p1, p2, p3 := Ranked(0.2, 0), Ranked(0.9, 1), Ranked(0.9, 2), Ranked(0.1, 3);
    var ps := Pairs([0.2, 0.9, 0.9, 0.1]);
    assert ps == [p0, p1, p2, p3];
    assert [p0, p1][..1] == [p0];
    assert SortByWeight([p0]) == [p0];
    assert InsertByWeight([p0], p1) == [p1, p0];
    assert SortByWeight([p0, p1]) == [p1, p0];
    assert InsertByWeight([p1], p2) == [p1, p2];
    assert InsertByWeight([p1, p0], p2) == [p1, p2, p0];
    assert [p0, p1, p2][..2] == [p0, p1];
    assert SortByWeight([p0, p1, p2]) == [p1, p2, p0];
    assert ps[..3] == [p0, p1, p2];
    assert SortByWeight(ps) == [p1, p2, p0, p3];
  }

  /** A two-column row: the heavier column comes first and both are kept under k = 3. */
  lemma TopKTwoColumns()
    ensures TopK([0.3, 0.8], 3) == [1, 0]
  {
    var p0, p1 := Ranked(0.3, 0), Ranked(0.8, 1);
    var ps := Pairs([0.3, 0.8]);
    assert ps == [p0, p1];
    assert ps[..1] == [p0];
    assert SortByWeight([p0]) == [p0];
    assert InsertByWeight([p0], p1) == [p1, p0];
    assert SortByWeight(ps) == [p1, p0];
  }

  /** An empty row and k = 0 both select nothing. */
  lemma TopKEmptyCases(weights: seq<real>)
    ensures TopK([], 3) == [] && TopK(weights, 0) == []
  {
  }
}
