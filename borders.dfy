/** Border levels (table_extraction.py, lines 202-224): the edge coordinates
    of a table's cells are clustered with group_by_proximity, two coordinates
    being close when they differ by at most the threshold; each cluster gives
    one level, the mean of its coordinates truncated toward zero; the levels
    are then sorted, and two clusters with the same mean give the same level
    twice. */
module Borders {
  import opened Outcome
  import opened Builtins
  import opened Grouping
  import opened Geometry

  /** _are_close */
  predicate AreClose(x: int, y: int) {
    Abs(x - y) <= ProximityThreshold
  }

  /** _are_close as the value handed to group_by_proximity. */
  function CloseTest(): (int, int) -> bool {
    (x, y) => AreClose(x, y)
  }

  /** a < b exactly when a * k < b * k, for a positive k. */
  lemma {:induction false} MulMonotone(a: int, b: int, k: int)
    requires k > 0
    ensures a < b <==> a * k < b * k
    decreases k
  {
    if k > 1 {
      MulMonotone(a, b, k - 1);
      assert a * k == a * (k - 1) + a && b * k == b * (k - 1) + b;
    }
  }

  /** Euclidean division of a non-negative a by a positive b: the quotient
      is the number of whole b in a. */
  lemma DivBounds(a: int, b: int)
    requires a >= 0 && b > 0
    ensures a / b >= 0
    ensures (a / b) * b <= a < (a / b + 1) * b
  {
    var q, m := a / b, a % b;
    assert a == q * b + m && 0 <= m < b;
    assert (q + 1) * b == q * b + b;
  }

  /** int(a / b) for a positive b: the quotient truncated toward zero, so
      its magnitude is the number of whole b in |a| and it has the sign of a. */
  function TruncatedDiv(a: int, b: int): (q: int)
    requires b > 0
    ensures Abs(q) * b <= Abs(a) < (Abs(q) + 1) * b
    ensures (a >= 0 ==> q >= 0) && (a <= 0 ==> q <= 0)
  {
    if a >= 0 then
      DivBounds(a, b);
      a / b
    else
      DivBounds(-a, b);
      -((-a) / b)
  }

  /** _mean: the average truncated toward zero; an empty list is an error. */
  function Mean(ints: seq<int>): (r: Result<int>)
    ensures r.Ok? <==> ints != []
    ensures r.Err? ==> r.error == EmptyMean
    ensures r.Ok? ==> Abs(r.value) * |ints| <= Abs(Sum(ints)) < (Abs(r.value) + 1) * |ints|
    ensures r.Ok? ==> (Sum(ints) >= 0 ==> r.value >= 0) && (Sum(ints) <= 0 ==> r.value <= 0)
  {
    if ints == [] then Err(EmptyMean) else Ok(TruncatedDiv(Sum(ints), |ints|))
  }

  /** n elements between lo and hi sum to between n * lo and n * hi. */
  lemma {:induction false} SumBounds(s: seq<int>, lo: int, hi: int)
    requires forall i :: 0 <= i < |s| ==> lo <= s[i] <= hi
    ensures |s| * lo <= Sum(s) <= |s| * hi
  {
    if s != [] {
      var init, last, n := s[..|s| - 1], s[|s| - 1], |s| - 1;
      assert forall i :: 0 <= i < n ==> init[i] == s[i];
      SumBounds(init, lo, hi);
      assert Sum(s) == Sum(init) + last;
      assert (n + 1) * lo == n * lo + lo && (n + 1) * hi == n * hi + hi;
    }
  }

  /** A quotient truncated toward zero stays within the bounds of the dividend. */
  lemma TruncatedDivWithin(s: int, k: int, lo: int, hi: int)
    requires k > 0 && k * lo <= s <= k * hi
    ensures lo <= TruncatedDiv(s, k) <= hi
  {
    var q := TruncatedDiv(s, k);
    var m := Abs(q);
    assert m * k <= Abs(s) < (m + 1) * k;
    assert k * lo == lo * k && k * hi == hi * k;
    if s >= 0 {
      assert q == m;
      // q * k <= s <= hi * k, and lo * k <= s < (q + 1) * k
      MulMonotone(hi, q, k);
      MulMonotone(lo, q + 1, k);
    } else {
      assert q == -m && Abs(s) == -s;
      // (-q) * k <= -s <= -lo * k, and -hi * k <= -s < (-q + 1) * k
      assert (-lo) * k == -(lo * k) && (-hi) * k == -(hi * k);
      MulMonotone(-lo, -q, k);
      MulMonotone(-hi, -q + 1, k);
    }
  }

  /** The mean of a list lies between its least and greatest element. */
  lemma MeanWithin(ints: seq<int>)
    requires ints != []
    ensures Min(ints).value <= Mean(ints).value <= Max(ints).value
  {
    var lo, hi := Min(ints).value, Max(ints).value;
    forall i | 0 <= i < |ints|
      ensures lo <= ints[i] <= hi
    {
      assert ints[i] in ints;
    }
    SumBounds(ints, lo, hi);
    TruncatedDivWithin(Sum(ints), |ints|, lo, hi);
  }

  /** tests/test_table_extraction.py, lines 136-138, and a negative mean,
      which truncation moves toward zero. */
  lemma MeanExamples()
    ensures Mean([1, 2, 3]) == Ok(2)
    ensures Mean([1, 5, 11]) == Ok(5)
    ensures Mean([-1, -2]) == Ok(-1)
    ensures Mean([]) == Err(EmptyMean)
  {
    assert [1, 2, 3][..2] == [1, 2] && [1, 2][..1] == [1] && [1][..0] == [];
    assert [1, 5, 11][..2] == [1, 5] && [1, 5][..1] == [1];
    assert [-1, -2][..1] == [-1] && [-1][..0] == [];
  }

  /** The clusters of close coordinates, as group_by_proximity forms them. */
  ghost function Clusters(ints: seq<int>): seq<seq<int>> {
    ProximityGroups(ints, CloseTest())
  }

  /** One level per cluster: its mean. */
  ghost function ClusterMeans(ints: seq<int>): seq<int> {
    var groups := Clusters(ints);
    ProximityGroupsPermute(ints, CloseTest());
    seq(|groups|, u requires 0 <= u < |groups| => Mean(groups[u]).value)
  }

  /** _group_ints: there is one level per cluster, the truncated mean of that
      cluster, and so it lies between the cluster's least and greatest
      coordinate; an empty list has no level. */
  lemma ClusterMeansWithin(ints: seq<int>)
    ensures var groups, means := Clusters(ints), ClusterMeans(ints);
      && |means| == |groups|
      && (ints == [] <==> means == [])
      && forall u :: 0 <= u < |groups| ==>
           && Mean(groups[u]) == Ok(means[u])
           && Min(groups[u]).value <= means[u] <= Max(groups[u]).value
  {
    var groups, means := Clusters(ints), ClusterMeans(ints);
    ProximityGroupsPermute(ints, CloseTest());
    forall u | 0 <= u < |groups|
      ensures Mean(groups[u]) == Ok(means[u]) && Min(groups[u]).value <= means[u] <= Max(groups[u]).value
    {
      MeanWithin(groups[u]);
    }
  }

  /** _group_ints */
  method GroupInts(ints: seq<int>) returns (levels: seq<int>)
    ensures levels == ClusterMeans(ints)
  {
    var groups := GroupByProximity(ints, CloseTest());
    ProximityGroupsPermute(ints, CloseTest());
    levels := seq(|groups|, u requires 0 <= u < |groups| => Mean(groups[u]).value);
  }

  /** y_0 and y_1 of every cell, in order. */
  function HorizontalEdges(cells: seq<DetectedCell>): (levels: seq<int>)
    ensures |levels| == 2 * |cells|
    ensures forall t :: 0 <= t < |cells| ==>
      levels[2 * t] == cells[t].contour.y0 && levels[2 * t + 1] == cells[t].contour.y1
  {
    if cells == [] then []
    else [cells[0].contour.y0, cells[0].contour.y1] + HorizontalEdges(cells[1..])
  }

  /** x_0 and x_1 of every cell, in order. */
  function VerticalEdges(cells: seq<DetectedCell>): (levels: seq<int>)
    ensures |levels| == 2 * |cells|
    ensures forall t :: 0 <= t < |cells| ==>
      levels[2 * t] == cells[t].contour.x0 && levels[2 * t + 1] == cells[t].contour.x1
  {
    if cells == [] then []
    else [cells[0].contour.x0, cells[0].contour.x1] + VerticalEdges(cells[1..])
  }

  /** The sorted cluster means of some coordinates. */
  ghost function BorderLevels(edges: seq<int>): seq<int> {
    SortBy(ClusterMeans(edges), Identity)
  }

  /** The border levels are the cluster means, each kept as often as it
      occurs, in ascending order; there are some as soon as there is a
      coordinate. */
  lemma BorderLevelsSorted(edges: seq<int>)
    ensures var levels := BorderLevels(edges);
      && Ascending(levels, Identity)
      && multiset(levels) == multiset(ClusterMeans(edges))
      && (edges == [] <==> levels == [])
  {
    SortByCorrect(ClusterMeans(edges), Identity);
    ClusterMeansWithin(edges);
  }

  /** _detect_horizontal_border_levels */
  method DetectHorizontalBorderLevels(cells: seq<DetectedCell>) returns (levels: seq<int>)
    ensures levels == BorderLevels(HorizontalEdges(cells))
  {
    var means := GroupInts(HorizontalEdges(cells));
    levels := SortBy(means, Identity);
  }

  /** _detect_vertical_border_levels */
  method DetectVerticalBorderLevels(cells: seq<DetectedCell>) returns (levels: seq<int>)
    ensures levels == BorderLevels(VerticalEdges(cells))
  {
    var means := GroupInts(VerticalEdges(cells));
    levels := SortBy(means, Identity);
  }
}
