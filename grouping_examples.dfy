/** The cases of tests/test_table_extraction.py (lines 91-145) evaluated on
    the specification functions that the methods of module Grouping and
    Borders.GroupInts are proved to compute.

    Each case is stated twice.  A helper takes the input as a parameter that
    its requires fixes, so the proof works on sliced pieces of it.  A
    parameterless lemma at the end of the module states the case on the
    literal input and calls that helper. */
module GroupingExamples {
  import opened Outcome
  import opened Builtins
  import opened PyDict
  import opened ParentForest
  import opened Partition
  import opened Connectivity
  import opened Grouping
  import opened Geometry
  import opened Borders

  /** test_get_highest_ascendant (lines 91-95): the root reached from key 1.
      The Python map carries no heights; each case gives one that shows the
      map is a forest. */
  lemma HighestAscendantExample1()
    ensures var p, h := map[0 := 0, 1 := 2, 2 := 3, 3 := 0], map[0 := 3, 1 := 0, 2 := 1, 3 := 2];
      Forest(p, h) && Root(p, h, 1) == 0
  {
    var p, h := map[0 := 0, 1 := 2, 2 := 3, 3 := 0], map[0 := 3, 1 := 0, 2 := 1, 3 := 2];
    assert ForestAt(p, h, 0) && ForestAt(p, h, 1) && ForestAt(p, h, 2) && ForestAt(p, h, 3);
    assert Root(p, h, 0) == 0 && Root(p, h, 3) == 0 && Root(p, h, 2) == 0;
  }

  lemma HighestAscendantExample2()
    ensures var p, h := map[0 := 0, 1 := 2, 2 := 3, 3 := 3], map[0 := 0, 1 := 0, 2 := 1, 3 := 2];
      Forest(p, h) && Root(p, h, 1) == 3
  {
    var p, h := map[0 := 0, 1 := 2, 2 := 3, 3 := 3], map[0 := 0, 1 := 0, 2 := 1, 3 := 2];
    assert ForestAt(p, h, 0) && ForestAt(p, h, 1) && ForestAt(p, h, 2) && ForestAt(p, h, 3);
    assert Root(p, h, 3) == 3 && Root(p, h, 2) == 3;
  }

  lemma HighestAscendantExample3()
    ensures var p, h := map[0 := 0, 1 := 1, 2 := 3, 3 := 3], map[0 := 0, 1 := 0, 2 := 0, 3 := 1];
      Forest(p, h) && Root(p, h, 1) == 1
  {
    var p, h := map[0 := 0, 1 := 1, 2 := 3, 3 := 3], map[0 := 0, 1 := 0, 2 := 0, 3 := 1];
    assert ForestAt(p, h, 0) && ForestAt(p, h, 1) && ForestAt(p, h, 2) && ForestAt(p, h, 3);
  }

  lemma HighestAscendantExample4()
    ensures var p, h := map[0 := 0, 1 := 0, 2 := 3, 3 := 3], map[0 := 1, 1 := 0, 2 := 0, 3 := 1];
      Forest(p, h) && Root(p, h, 1) == 0
  {
    var p, h := map[0 := 0, 1 := 0, 2 := 3, 3 := 3], map[0 := 1, 1 := 0, 2 := 0, 3 := 1];
    assert ForestAt(p, h, 0) && ForestAt(p, h, 1) && ForestAt(p, h, 2) && ForestAt(p, h, 3);
    assert Root(p, h, 0) == 0;
  }

  // ---------------------------------------------------------------------------
  // Evaluating Distinct and Select block by block

  /** m copies of c. */
  function Block(c: nat, m: nat): (r: seq<nat>)
    ensures |r| == m && forall t :: 0 <= t < m ==> r[t] == c
  {
    seq(m, _ => c)
  }

  lemma SelectAppend(ks: seq<nat>, gs: seq<nat>, k: nat, g: nat, x: nat)
    requires |ks| == |gs|
    ensures Select(ks + [k], gs + [g], x) == Select(ks, gs, x) + (if g == x then [k] else [])
  {
    assert (ks + [k])[..|ks|] == ks && (gs + [g])[..|gs|] == gs;
  }

  /** One more key and label after the concatenation. */
  lemma SelectConcatStep(ks: seq<nat>, gs: seq<nat>, ks': seq<nat>, gs': seq<nat>, k: nat, g: nat, x: nat)
    requires |ks| == |gs| && |ks'| == |gs'|
    requires Select(ks + ks', gs + gs', x) == Select(ks, gs, x) + Select(ks', gs', x)
    ensures Select(ks + (ks' + [k]), gs + (gs' + [g]), x) == Select(ks, gs, x) + Select(ks' + [k], gs' + [g], x)
  {
    assert ks + (ks' + [k]) == (ks + ks') + [k] && gs + (gs' + [g]) == (gs + gs') + [g];
    SelectAppend(ks + ks', gs + gs', k, g, x);
    SelectAppend(ks', gs', k, g, x);
    var a, b, last := Select(ks, gs, x), Select(ks', gs', x), if g == x then [k] else [];
    assert (a + b) + last == a + (b + last);
  }

  /** Select distributes over concatenation. */
  lemma {:induction false} SelectConcat(ks: seq<nat>, gs: seq<nat>, ks': seq<nat>, gs': seq<nat>, x: nat)
    requires |ks| == |gs| && |ks'| == |gs'|
    ensures Select(ks + ks', gs + gs', x) == Select(ks, gs, x) + Select(ks', gs', x)
  {
    if ks' == [] {
      assert ks + ks' == ks && gs + gs' == gs;
    } else {
      var n := |ks'| - 1;
      SelectConcat(ks, gs, ks'[..n], gs'[..n], x);
      SelectConcatStep(ks, gs, ks'[..n], gs'[..n], ks'[n], gs'[n], x);
      assert ks' == ks'[..n] + [ks'[n]] && gs' == gs'[..n] + [gs'[n]];
    }
  }

  /** Over a block of one label, Select keeps everything or nothing. */
  lemma {:induction false} SelectBlock(ks: seq<nat>, c: nat, x: nat)
    ensures Select(ks, Block(c, |ks|), x) == if c == x then ks else []
  {
    if ks != [] {
      var n := |ks| - 1;
      SelectBlock(ks[..n], c, x);
      assert ks == ks[..n] + [ks[n]] && Block(c, |ks|) == Block(c, n) + [c];
      SelectAppend(ks[..n], Block(c, n), ks[n], c, x);
    }
  }

  lemma DistinctAppend(gs: seq<nat>, g: nat)
    ensures Distinct(gs + [g]) == if g in Distinct(gs) then Distinct(gs) else Distinct(gs) + [g]
  {
    assert (gs + [g])[..|gs|] == gs;
  }

  /** A block of one label adds that label once, unless it was there. */
  lemma {:induction false} DistinctBlock(gs: seq<nat>, c: nat, m: nat)
    requires m > 0
    ensures Distinct(gs + Block(c, m)) == if c in gs then Distinct(gs) else Distinct(gs) + [c]
  {
    var init := gs + Block(c, m - 1);
    assert gs + Block(c, m) == init + [c];
    DistinctAppend(init, c);
    if m > 1 {
      DistinctBlock(gs, c, m - 1);
      assert init[|gs|] == c;
    } else {
      assert init == gs;
    }
  }

  /** A block of a new label adds one group: the block's keys. */
  lemma ClassifyNewBlock(ks: seq<nat>, gs: seq<nat>, ks': seq<nat>, c: nat)
    requires |ks| == |gs| && ks' != [] && c !in gs
    ensures Distinct(gs + Block(c, |ks'|)) == Distinct(gs) + [c]
    ensures Classify(ks + ks', gs + Block(c, |ks'|)) == Classify(ks, gs) + [ks']
  {
    var gs' := gs + Block(c, |ks'|);
    var d := Distinct(gs);
    DistinctBlock(gs, c, |ks'|);
    assert Distinct(gs') == d + [c];
    forall u | 0 <= u < |d| + 1
      ensures Select(ks + ks', gs', (d + [c])[u]) == (Classify(ks, gs) + [ks'])[u]
    {
      var x := (d + [c])[u];
      SelectConcat(ks, gs, ks', Block(c, |ks'|), x);
      SelectBlock(ks', c, x);
      if u == |d| {
        SelectAbsent(ks, gs, c);
      } else {
        assert x in d;
      }
    }
  }

  /** The groups of one block of keys with the same label. */
  lemma ClassifyBlocks1(ks0: seq<nat>, c0: nat)
    requires ks0 != []
    ensures Distinct(Block(c0, |ks0|)) == [c0]
    ensures Classify(ks0, Block(c0, |ks0|)) == [ks0]
  {
    ClassifyNewBlock([], [], ks0, c0);
    assert [] + ks0 == ks0 && [] + Block(c0, |ks0|) == Block(c0, |ks0|);
  }

  /** The groups of consecutive blocks of distinct labels are the blocks. */
  lemma ClassifyBlocks2(ks0: seq<nat>, c0: nat, ks1: seq<nat>, c1: nat)
    requires ks0 != [] && ks1 != [] && c0 != c1
    ensures Distinct(Block(c0, |ks0|) + Block(c1, |ks1|)) == [c0, c1]
    ensures Classify(ks0 + ks1, Block(c0, |ks0|) + Block(c1, |ks1|)) == [ks0, ks1]
  {
    ClassifyBlocks1(ks0, c0);
    ClassifyNewBlock(ks0, Block(c0, |ks0|), ks1, c1);
  }

  lemma ClassifyBlocks4(ks0: seq<nat>, c0: nat, ks1: seq<nat>, c1: nat, ks2: seq<nat>, c2: nat, ks3: seq<nat>, c3: nat)
    requires ks0 != [] && ks1 != [] && ks2 != [] && ks3 != []
    requires c0 != c1 && c0 != c2 && c0 != c3 && c1 != c2 && c1 != c3 && c2 != c3
    ensures var gs := Block(c0, |ks0|) + Block(c1, |ks1|) + Block(c2, |ks2|) + Block(c3, |ks3|);
      Distinct(gs) == [c0, c1, c2, c3] && Classify(ks0 + ks1 + ks2 + ks3, gs) == [ks0, ks1, ks2, ks3]
  {
    ClassifyBlocks2(ks0, c0, ks1, c1);
    var gs := Block(c0, |ks0|) + Block(c1, |ks1|);
    assert c2 !in gs;
    ClassifyNewBlock(ks0 + ks1, gs, ks2, c2);
    assert c3 !in gs + Block(c2, |ks2|);
    ClassifyNewBlock(ks0 + ks1 + ks2, gs + Block(c2, |ks2|), ks3, c3);
  }

  /** A dict written out with two, three or four distinct keys. */
  lemma DictOf2(d: Dict<nat, nat>, a: nat, va: nat, b: nat, vb: nat)
    requires a != b && d == Dict([a, b], map[a := va, b := vb])
    ensures d.Valid() && d.Values() == [va, vb]
  {
    assert d.Apart(0, 1);
  }

  lemma DictOf3(d: Dict<nat, nat>, a: nat, va: nat, b: nat, vb: nat, c: nat, vc: nat)
    requires a != b && a != c && b != c && d == Dict([a, b, c], map[a := va, b := vb, c := vc])
    ensures d.Valid() && d.Values() == [va, vb, vc]
  {
    assert d.Apart(0, 1) && d.Apart(0, 2) && d.Apart(1, 2);
  }

  lemma DictOf4(d: Dict<nat, nat>, a: nat, va: nat, b: nat, vb: nat, c: nat, vc: nat, e: nat, ve: nat)
    requires a != b && a != c && a != e && b != c && b != e && c != e
    requires d == Dict([a, b, c, e], map[a := va, b := vb, c := vc, e := ve])
    ensures d.Valid() && d.Values() == [va, vb, vc, ve]
  {
    assert d.Apart(0, 1) && d.Apart(0, 2) && d.Apart(0, 3) && d.Apart(1, 2) && d.Apart(1, 3) && d.Apart(2, 3);
  }

  /** test_revert_dict (lines 98-102): RevertDict returns the dict whose keys
      are Distinct(d.Values()) and whose values are Classify(d.keys, d.Values()). */
  lemma RevertDictCase1(d: Dict<nat, nat>)
    requires d == Dict([1, 2, 3], map[1 := 1, 2 := 1, 3 := 3])
    ensures d.Valid() && Distinct(d.Values()) == [1, 3] && Classify(d.keys, d.Values()) == [[1, 2], [3]]
  {
    DictOf3(d, 1, 1, 2, 1, 3, 3);
    var ks0, ks1 := d.keys[..2], d.keys[2..];
    assert d.Values() == Block(1, |ks0|) + Block(3, |ks1|) && d.keys == ks0 + ks1;
    assert ks0 == [1, 2] && ks1 == [3];
    ClassifyBlocks2(ks0, 1, ks1, 3);
  }

  lemma RevertDictExample2()
    ensures var d: Dict<nat, nat> := EmptyDict();
      d.Valid() && Distinct(d.Values()) == [] && Classify(d.keys, d.Values()) == []
  {
  }

  lemma RevertDictCase3(d: Dict<nat, nat>)
    requires d == Dict([1, 2], map[1 := 1, 2 := 2])
    ensures d.Valid() && Distinct(d.Values()) == [1, 2] && Classify(d.keys, d.Values()) == [[1], [2]]
  {
    DictOf2(d, 1, 1, 2, 2);
    var ks0, ks1 := d.keys[..1], d.keys[1..];
    assert d.Values() == Block(1, |ks0|) + Block(2, |ks1|) && d.keys == ks0 + ks1;
    ClassifyBlocks2(ks0, 1, ks1, 2);
  }

  lemma RevertDictCase4(d: Dict<nat, nat>)
    requires d == Dict([1, 2, 3], map[1 := 1, 2 := 1, 3 := 1])
    ensures d.Valid() && Distinct(d.Values()) == [1] && Classify(d.keys, d.Values()) == [[1, 2, 3]]
  {
    DictOf3(d, 1, 1, 2, 1, 3, 1);
    assert d.Values() == Block(1, |d.keys|);
    ClassifyBlocks1(d.keys, 1);
  }

  /** The parent maps of test_build_groups, each with heights that make it
      a forest, and the root of every key. */
  lemma ParentsRoots1(p: map<nat, nat>, h: map<nat, int>)
    requires p == map[0 := 1, 1 := 1, 2 := 1] && h == map[0 := 0, 1 := 1, 2 := 0]
    ensures Forest(p, h) && Roots(p, h, [0, 1, 2]) == [1, 1, 1]
  {
    assert p.Keys == h.Keys;
    assert ForestAt(p, h, 0) && ForestAt(p, h, 1) && ForestAt(p, h, 2);
    assert Root(p, h, 1) == 1;
  }

  lemma ParentsRoots2(p: map<nat, nat>, h: map<nat, int>)
    requires p == map[0 := 1, 1 := 1, 2 := 2] && h == map[0 := 0, 1 := 1, 2 := 0]
    ensures Forest(p, h) && Roots(p, h, [0, 1, 2]) == [1, 1, 2]
  {
    assert p.Keys == h.Keys;
    assert ForestAt(p, h, 0) && ForestAt(p, h, 1) && ForestAt(p, h, 2);
    assert Root(p, h, 1) == 1;
  }

  lemma ParentsRoots3(p: map<nat, nat>, h: map<nat, int>)
    requires p == map[0 := 1, 1 := 1, 2 := 0] && h == map[0 := 1, 1 := 2, 2 := 0]
    ensures Forest(p, h) && Roots(p, h, [0, 1, 2]) == [1, 1, 1]
  {
    assert p.Keys == h.Keys;
    assert ForestAt(p, h, 0) && ForestAt(p, h, 1) && ForestAt(p, h, 2);
    assert Root(p, h, 1) == 1 && Root(p, h, 0) == 1;
  }

  lemma ParentsRoots4(p: map<nat, nat>, h: map<nat, int>)
    requires p == map[0 := 0, 1 := 1, 2 := 2, 3 := 3] && h == map[0 := 0, 1 := 0, 2 := 0, 3 := 0]
    ensures Forest(p, h) && Roots(p, h, [0, 1, 2, 3]) == [0, 1, 2, 3]
  {
    assert p.Keys == h.Keys;
    assert ForestAt(p, h, 0) && ForestAt(p, h, 1) && ForestAt(p, h, 2) && ForestAt(p, h, 3);
  }

  /** test_build_groups (lines 105-109): BuildGroups returns
      Classify(d.keys, Roots(d.entries, height, d.keys)) for any heights that
      show the parent map is a forest. */
  lemma BuildGroupsCase1(d: Dict<nat, nat>, h: map<nat, int>)
    requires d == Dict([0, 1, 2], map[0 := 1, 1 := 1, 2 := 1]) && h == map[0 := 0, 1 := 1, 2 := 0]
    ensures d.Valid() && Forest(d.entries, h) && Classify(d.keys, Roots(d.entries, h, d.keys)) == [[0, 1, 2]]
  {
    DictOf3(d, 0, 1, 1, 1, 2, 1);
    ParentsRoots1(d.entries, h);
    assert Roots(d.entries, h, d.keys) == Block(1, |d.keys|);
    ClassifyBlocks1(d.keys, 1);
  }

  lemma BuildGroupsCase2(d: Dict<nat, nat>, h: map<nat, int>)
    requires d == Dict([0, 1, 2], map[0 := 1, 1 := 1, 2 := 2]) && h == map[0 := 0, 1 := 1, 2 := 0]
    ensures d.Valid() && Forest(d.entries, h) && Classify(d.keys, Roots(d.entries, h, d.keys)) == [[0, 1], [2]]
  {
    DictOf3(d, 0, 1, 1, 1, 2, 2);
    ParentsRoots2(d.entries, h);
    var ks0, ks1 := d.keys[..2], d.keys[2..];
    assert Roots(d.entries, h, d.keys) == Block(1, |ks0|) + Block(2, |ks1|) && d.keys == ks0 + ks1;
    assert ks0 == [0, 1] && ks1 == [2];
    ClassifyBlocks2(ks0, 1, ks1, 2);
  }

  lemma BuildGroupsCase3(d: Dict<nat, nat>, h: map<nat, int>)
    requires d == Dict([0, 1, 2], map[0 := 1, 1 := 1, 2 := 0]) && h == map[0 := 1, 1 := 2, 2 := 0]
    ensures d.Valid() && Forest(d.entries, h) && Classify(d.keys, Roots(d.entries, h, d.keys)) == [[0, 1, 2]]
  {
    DictOf3(d, 0, 1, 1, 1, 2, 0);
    ParentsRoots3(d.entries, h);
    assert Roots(d.entries, h, d.keys) == Block(1, |d.keys|);
    ClassifyBlocks1(d.keys, 1);
  }

  lemma BuildGroupsCase4(d: Dict<nat, nat>, h: map<nat, int>)
    requires d == Dict([0, 1, 2, 3], map[0 := 0, 1 := 1, 2 := 2, 3 := 3]) && h == map[0 := 0, 1 := 0, 2 := 0, 3 := 0]
    ensures d.Valid() && Forest(d.entries, h) && Classify(d.keys, Roots(d.entries, h, d.keys)) == [[0], [1], [2], [3]]
  {
    DictOf4(d, 0, 0, 1, 1, 2, 2, 3, 3);
    ParentsRoots4(d.entries, h);
    var ks0, ks1, ks2, ks3 := d.keys[..1], d.keys[1..2], d.keys[2..3], d.keys[3..];
    assert ks0 == [0] && ks1 == [1] && ks2 == [2] && ks3 == [3];
    assert Block(0, 1) == [0] && Block(1, 1) == [1] && Block(2, 1) == [2] && Block(3, 1) == [3];
    assert d.keys == [0] + [1] + [2] + [3];
    ClassifyBlocks4(ks0, 0, ks1, 1, ks2, 2, ks3, 3);
  }

  // ---------------------------------------------------------------------------
  // test_mean (lines 136-139)

  /** [2, 10] * k, written out to n elements. */
  function Alternating(n: nat): (s: seq<int>)
    ensures |s| == n && forall i :: 0 <= i < n ==> s[i] == if i % 2 == 0 then 2 else 10
  {
    seq(n, i => if i % 2 == 0 then 2 else 10)
  }

  /** Every pair [2, 10] adds 12. */
  lemma {:induction false} AlternatingSum(k: nat)
    ensures Sum(Alternating(2 * k)) == 12 * k
  {
    if k > 0 {
      var n := 2 * k;
      assert Alternating(n)[..n - 1] == Alternating(n - 1);
      assert Alternating(n - 1)[..n - 2] == Alternating(n - 2);
      AlternatingSum(k - 1);
    }
  }

  /** _mean([2, 10] * 100) == 6 */
  lemma AlternatingMean(ints: seq<int>)
    requires ints == Alternating(200)
    ensures Mean(ints) == Ok(6)
  {
    AlternatingSum(100);
    assert 1200 / 200 == 6;
  }

  // ---------------------------------------------------------------------------
  // test_group_by_proximity (lines 116-133) and test_group_ints (lines 142-145)

  /** No coordinate lies just above lo: each is at most lo, or more than the
      threshold above it. */
  ghost predicate GapAbove(ints: seq<int>, lo: int) {
    forall k :: 0 <= k < |ints| ==> ints[k] <= lo || ints[k] > lo + ProximityThreshold
  }

  /** Across such a gap no two coordinates are close, so the coordinates at
      most lo form a separated set. */
  lemma GapSeparates(ints: seq<int>, lo: int)
    requires GapAbove(ints, lo)
    ensures Separated(Links(ints, CloseTest()), set k: nat | k < |ints| && ints[k] <= lo)
  {
    var links, S := Links(ints, CloseTest()), set k: nat | k < |ints| && ints[k] <= lo;
    forall a: nat, b: nat | (a, b) in links ensures a in S <==> b in S {
      assert AreClose(ints[a], ints[b]);
    }
  }

  /** The first input of test_group_by_proximity, described by its entries. */
  ghost predicate SampleShape(ints: seq<int>) {
    && |ints| == 12
    && (forall k :: 0 <= k < 7 ==> ints[k] == k)
    && ints[7] == 100 && ints[8] == 200 && ints[9] == 1000 && ints[10] == 1001 && ints[11] == 1002
  }

  lemma SampleShapeOf(ints: seq<int>)
    requires ints == [0, 1, 2, 3, 4, 5, 6, 100, 200, 1000, 1001, 1002]
    ensures SampleShape(ints)
  {
  }

  /** The three gaps of the sample: above 6, above 100 and above 200. */
  lemma SampleGaps(ints: seq<int>)
    requires SampleShape(ints)
    ensures GapAbove(ints, 50) && GapAbove(ints, 150) && GapAbove(ints, 500)
  {
  }

  /** Indices 1 to 6 are close to index 0, so each is labelled 0. */
  lemma SampleLabelLow(ints: seq<int>, k: nat)
    requires SampleShape(ints) && k < 7
    ensures FirstConnected(12, Links(ints, CloseTest()), k) == 0
  {
    var links := Links(ints, CloseTest());
    if k == 0 {
      ConnectedRefl(12, links, 12, 0, 0);
    } else {
      assert AreClose(ints[k], ints[0]);
      EdgeConnected(12, links, 12, 0, 0, k);
    }
    FirstConnectedIs(12, links, k, 0);
  }

  /** An index with a gap below it is connected to no earlier index. */
  lemma SampleLabelAlone(ints: seq<int>, k: nat, lo: int)
    requires |ints| == 12 && k < 12 && GapAbove(ints, lo) && ints[k] > lo
    requires forall m :: 0 <= m < k ==> ints[m] <= lo
    ensures FirstConnected(12, Links(ints, CloseTest()), k) == k
  {
    var links, S := Links(ints, CloseTest()), set m: nat | m < |ints| && ints[m] <= lo;
    GapSeparates(ints, lo);
    ConnectedRefl(12, links, 12, 0, k);
    forall m | 0 <= m < k ensures !Connected(12, links, m, k) {
      NotConnectedAcross(12, links, S, m, k);
    }
    FirstConnectedIs(12, links, k, k);
  }

  /** Indices 10 and 11 are close to index 9, which is alone below them. */
  lemma SampleLabelHigh(ints: seq<int>, k: nat)
    requires SampleShape(ints) && 9 <= k < 12
    ensures FirstConnected(12, Links(ints, CloseTest()), k) == 9
  {
    var links, S := Links(ints, CloseTest()), set m: nat | m < |ints| && ints[m] <= 500;
    SampleGaps(ints);
    GapSeparates(ints, 500);
    if k == 9 {
      ConnectedRefl(12, links, 12, 0, 9);
    } else {
      assert AreClose(ints[k], ints[9]);
      EdgeConnected(12, links, 12, 0, 9, k);
    }
    forall m | 0 <= m < 9 ensures !Connected(12, links, m, k) {
      NotConnectedAcross(12, links, S, m, k);
    }
    FirstConnectedIs(12, links, k, 9);
  }

  /** Every index of the sample labelled by its component. */
  lemma SampleLabels(ints: seq<int>)
    requires SampleShape(ints)
    ensures ComponentLabels(12, Links(ints, CloseTest())) == Block(0, 7) + Block(7, 1) + Block(8, 1) + Block(9, 3)
  {
    var links := Links(ints, CloseTest());
    var labels := Block(0, 7) + Block(7, 1) + Block(8, 1) + Block(9, 3);
    SampleGaps(ints);
    forall k | 0 <= k < 12 ensures ComponentLabels(12, links)[k] == labels[k] {
      if k < 7 {
        SampleLabelLow(ints, k);
      } else if k == 7 {
        SampleLabelAlone(ints, 7, 50);
      } else if k == 8 {
        SampleLabelAlone(ints, 8, 150);
      } else {
        SampleLabelHigh(ints, k);
      }
    }
  }

  /** range(12) cut where the labels of the sample change. */
  lemma SampleRangePieces(r: seq<nat>)
    requires r == Range(12)
    ensures r == r[..7] + r[7..8] + r[8..9] + r[9..]
    ensures r[..7] == [0, 1, 2, 3, 4, 5, 6] && r[7..8] == [7] && r[8..9] == [8] && r[9..] == [9, 10, 11]
  {
    assert r[..7] == [0, 1, 2, 3, 4, 5, 6];
    assert r[9..] == [9, 10, 11];
  }

  /** The index groups of the sample: its components, in order. */
  lemma SampleIndexGroups(ints: seq<int>)
    requires SampleShape(ints)
    ensures ProximityIndexGroups(12, Links(ints, CloseTest())) == [[0, 1, 2, 3, 4, 5, 6], [7], [8], [9, 10, 11]]
  {
    var labels := ComponentLabels(12, Links(ints, CloseTest()));
    SampleLabels(ints);
    var r := Range(|labels|);
    SampleRangePieces(r);
    var ks0, ks1, ks2, ks3 := r[..7], r[7..8], r[8..9], r[9..];
    assert labels == Block(0, |ks0|) + Block(7, |ks1|) + Block(8, |ks2|) + Block(9, |ks3|);
    ClassifyBlocks4(ks0, 0, ks1, 7, ks2, 8, ks3, 9);
  }

  /** The index groups of the sample, read back as coordinates. */
  lemma SampleProject(ints: seq<int>)
    requires SampleShape(ints)
    ensures Project(ints, [[0, 1, 2, 3, 4, 5, 6], [7], [8], [9, 10, 11]])
         == [[0, 1, 2, 3, 4, 5, 6], [100], [200], [1000, 1001, 1002]]
  {
    assert Pick(ints, [0, 1, 2, 3, 4, 5, 6]) == [0, 1, 2, 3, 4, 5, 6];
    assert Pick(ints, [7]) == [100] && Pick(ints, [8]) == [200];
    assert Pick(ints, [9, 10, 11]) == [1000, 1001, 1002];
  }

  /** group_by_proximity([0, 1, 2, 3, 4, 5, 6, 100, 200, 1000, 1001, 1002], _are_close)
      == [[0, 1, 2, 3, 4, 5, 6], [100], [200], [1000, 1001, 1002]] */
  lemma SampleClusters(ints: seq<int>)
    requires ints == [0, 1, 2, 3, 4, 5, 6, 100, 200, 1000, 1001, 1002]
    ensures Clusters(ints) == [[0, 1, 2, 3, 4, 5, 6], [100], [200], [1000, 1001, 1002]]
  {
    SampleShapeOf(ints);
    SampleIndexGroups(ints);
    SampleProject(ints);
  }

  lemma SumAppend(s: seq<int>, x: int)
    ensures Sum(s + [x]) == Sum(s) + x
  {
    assert (s + [x])[..|s|] == s;
  }

  /** 0 + 1 + ... + (n - 1) == n * (n - 1) / 2 */
  lemma {:induction false} SumRange(n: nat)
    ensures 2 * Sum(Range(n)) == n * (n - 1)
  {
    if n > 0 {
      var m := n - 1;
      assert Range(n) == Range(m) + [m];
      SumAppend(Range(m), m);
      SumRange(m);
      assert n * m == m * m + m && m * (m - 1) == m * m - m;
    }
  }

  /** The means of the sample's clusters. */
  lemma SampleMeans()
    ensures Mean([0, 1, 2, 3, 4, 5, 6]) == Ok(3) && Mean([100]) == Ok(100)
    ensures Mean([200]) == Ok(200) && Mean([1000, 1001, 1002]) == Ok(1001)
  {
    SumRange(7);
    assert Range(7) == [0, 1, 2, 3, 4, 5, 6];
    SumAppend([1000], 1001);
    SumAppend([1000, 1001], 1002);
    assert [1000] + [1001] == [1000, 1001] && [1000, 1001] + [1002] == [1000, 1001, 1002];
  }

  /** _group_ints on the same input: [3, 100, 200, 1001]. */
  lemma SampleGroupInts(ints: seq<int>)
    requires ints == [0, 1, 2, 3, 4, 5, 6, 100, 200, 1000, 1001, 1002]
    ensures ClusterMeans(ints) == [3, 100, 200, 1001]
  {
    SampleClusters(ints);
    SampleMeans();
  }

  // ---------------------------------------------------------------------------
  // The remaining cases of test_group_by_proximity and test_group_ints:
  // coordinates that form one chain, and coordinates all far apart

  /** Each coordinate is close to the one before it. */
  ghost predicate Chain(ints: seq<int>) {
    forall k :: 0 < k < |ints| ==> AreClose(ints[k], ints[k - 1])
  }

  /** Along a chain, every index is connected to index 0. */
  lemma {:induction false} ChainConnected(ints: seq<int>, k: nat)
    requires Chain(ints) && k < |ints|
    ensures Connected(|ints|, Links(ints, CloseTest()), 0, k)
  {
    var n, links := |ints|, Links(ints, CloseTest());
    if k == 0 {
      ConnectedRefl(n, links, n, 0, 0);
    } else {
      ChainConnected(ints, k - 1);
      assert AreClose(ints[k], ints[k - 1]);
      EdgeConnected(n, links, n, 0, k - 1, k);
      ConnectedTrans(n, links, n, 0, 0, k - 1, k);
    }
  }

  /** A chain is one cluster, in input order. */
  lemma ChainClusters(ints: seq<int>)
    requires Chain(ints) && ints != []
    ensures Clusters(ints) == [ints]
  {
    var n, links := |ints|, Links(ints, CloseTest());
    var labels := ComponentLabels(n, links);
    forall k | 0 <= k < n ensures labels[k] == 0 {
      ChainConnected(ints, k);
      FirstConnectedIs(n, links, k, 0);
    }
    var r := Range(n);
    assert labels == Block(0, |r|);
    ClassifyBlocks1(r, 0);
    assert Pick(ints, r) == ints;
  }

  /** group_by_proximity([0, 0, 0, 0], _are_close) == [[0, 0, 0, 0]] */
  lemma ZerosClusters(ints: seq<int>)
    requires ints == [0, 0, 0, 0]
    ensures Clusters(ints) == [[0, 0, 0, 0]]
  {
    ChainClusters(ints);
  }

  /** group_by_proximity(list(range(n)), _are_close) == [list(range(n))],
      tested for n = 50. */
  lemma RangeClusters(n: nat)
    requires n > 0
    ensures Clusters(Range(n)) == [Range(n)]
  {
    ChainClusters(Range(n));
  }

  /** _group_ints(list(range(51))) == [25] */
  lemma RangeGroupIntsCase(n: nat)
    requires n == 51
    ensures ClusterMeans(Range(n)) == [25]
  {
    RangeClusters(n);
    SumRange(n);
    assert Sum(Range(n)) == 1275;
  }

  /** Any two coordinates, in input order, are more than the threshold apart. */
  ghost predicate Spread(ints: seq<int>) {
    forall a, b :: 0 <= b < a < |ints| ==> ints[b] + ProximityThreshold < ints[a]
  }

  /** Far-apart coordinates are each connected to no earlier one. */
  lemma SpreadLabel(ints: seq<int>, k: nat)
    requires Spread(ints) && k < |ints|
    ensures FirstConnected(|ints|, Links(ints, CloseTest()), k) == k
  {
    var n, links, lo := |ints|, Links(ints, CloseTest()), ints[k] - ProximityThreshold - 1;
    var S := set m: nat | m < |ints| && ints[m] <= lo;
    assert GapAbove(ints, lo) by {
      forall m | 0 <= m < n ensures ints[m] <= lo || ints[m] > lo + ProximityThreshold {
        if m > k {
          assert ints[k] + ProximityThreshold < ints[m];
        }
      }
    }
    GapSeparates(ints, lo);
    ConnectedRefl(n, links, n, 0, k);
    forall m | 0 <= m < k ensures !Connected(n, links, m, k) {
      NotConnectedAcross(n, links, S, m, k);
    }
    FirstConnectedIs(n, links, k, k);
  }

  /** One more singleton group at the end. */
  lemma SingletonsSnoc(m: nat)
    ensures seq(m + 1, k => [k]) == seq(m, k => [k]) + [[m]]
  {
    var a, b := seq(m + 1, k => [k]), seq(m, k => [k]) + [[m]];
    forall k | 0 <= k < m + 1 ensures a[k] == b[k] {
    }
  }

  /** Distinct labels, in order, give one group per index. */
  lemma {:induction false} ClassesOfRange(n: nat)
    ensures Classes(Range(n)) == seq(n, k => [k])
  {
    if n > 0 {
      var m := n - 1;
      ClassesOfRange(m);
      assert Range(n) == Range(m) + [m] && [m] == Block(m, 1);
      ClassifyNewBlock(Range(m), Range(m), [m], m);
      SingletonsSnoc(m);
    }
  }

  /** Far-apart coordinates are each a cluster of their own. */
  lemma SpreadClusters(ints: seq<int>)
    requires Spread(ints)
    ensures Clusters(ints) == seq(|ints|, k requires 0 <= k < |ints| => [ints[k]])
  {
    var n, links := |ints|, Links(ints, CloseTest());
    forall k | 0 <= k < n ensures ComponentLabels(n, links)[k] == Range(n)[k] {
      SpreadLabel(ints, k);
    }
    assert ComponentLabels(n, links) == Range(n);
    ClassesOfRange(n);
    var groups := seq(n, k => [k]);
    forall u | 0 <= u < n ensures Project(ints, groups)[u] == [ints[u]] {
      assert Pick(ints, groups[u]) == [ints[u]];
    }
  }

  /** The coordinates 0, 100, ..., 100 * (n - 1). */
  function Hundreds(n: nat): (s: seq<int>)
    ensures |s| == n && forall k :: 0 <= k < n ==> s[k] == 100 * k
  {
    seq(n, k => 100 * k)
  }

  lemma HundredsSpread(n: nat)
    ensures Spread(Hundreds(n))
  {
    var ints := Hundreds(n);
    forall a, b | 0 <= b < a < n ensures ints[b] + ProximityThreshold < ints[a] {
      assert ints[a] - ints[b] == 100 * (a - b);
    }
  }

  /** group_by_proximity([x * 100 for x in range(n)], _are_close)
      == [[x * 100] for x in range(n)], tested for n = 50. */
  lemma HundredsClusters(n: nat)
    ensures Clusters(Hundreds(n)) == seq(n, k => [100 * k])
  {
    var ints := Hundreds(n);
    HundredsSpread(n);
    SpreadClusters(ints);
    assert seq(n, k requires 0 <= k < n => [ints[k]]) == seq(n, k => [100 * k]);
  }

  lemma MeanSingleton(x: int)
    ensures Mean([x]) == Ok(x)
  {
    assert [x][..0] == [] && Sum([x]) == x;
    var q := TruncatedDiv(x, 1);
    assert Abs(q) * 1 == Abs(q) && Abs(x) * 1 == Abs(x);
  }

  /** _group_ints([x * 100 for x in range(n)]) gives the coordinates
      themselves, tested for n = 50. */
  lemma HundredsGroupInts(n: nat)
    ensures ClusterMeans(Hundreds(n)) == Hundreds(n)
  {
    var ints, groups := Hundreds(n), seq(n, k => [100 * k]);
    HundredsClusters(n);
    var means := ClusterMeans(ints);
    assert |means| == n;
    forall k | 0 <= k < n ensures means[k] == ints[k] {
      MeanSingleton(100 * k);
      assert Clusters(ints)[k] == [100 * k];
    }
  }

  // The test cases above, each stated on its literal input.

  /** _revert_dict({1: 1, 2: 1, 3: 3}) == {1: [1, 2], 3: [3]} */
  lemma RevertDictExample1()
    ensures var d: Dict<nat, nat> := Dict([1, 2, 3], map[1 := 1, 2 := 1, 3 := 3]);
      d.Valid() && Distinct(d.Values()) == [1, 3] && Classify(d.keys, d.Values()) == [[1, 2], [3]]
  {
    RevertDictCase1(Dict([1, 2, 3], map[1 := 1, 2 := 1, 3 := 3]));
  }

  /** _revert_dict({1: 1, 2: 2}) == {1: [1], 2: [2]} */
  lemma RevertDictExample3()
    ensures var d: Dict<nat, nat> := Dict([1, 2], map[1 := 1, 2 := 2]);
      d.Valid() && Distinct(d.Values()) == [1, 2] && Classify(d.keys, d.Values()) == [[1], [2]]
  {
    RevertDictCase3(Dict([1, 2], map[1 := 1, 2 := 2]));
  }

  /** _revert_dict({1: 1, 2: 1, 3: 1}) == {1: [1, 2, 3]} */
  lemma RevertDictExample4()
    ensures var d: Dict<nat, nat> := Dict([1, 2, 3], map[1 := 1, 2 := 1, 3 := 1]);
      d.Valid() && Distinct(d.Values()) == [1] && Classify(d.keys, d.Values()) == [[1, 2, 3]]
  {
    RevertDictCase4(Dict([1, 2, 3], map[1 := 1, 2 := 1, 3 := 1]));
  }

  /** _build_groups({0: 1, 1: 1, 2: 1}) == [[0, 1, 2]] */
  lemma BuildGroupsExample1()
    ensures var d: Dict<nat, nat>, h: map<nat, int> := Dict([0, 1, 2], map[0 := 1, 1 := 1, 2 := 1]), map[0 := 0, 1 := 1, 2 := 0];
      d.Valid() && Forest(d.entries, h) && Classify(d.keys, Roots(d.entries, h, d.keys)) == [[0, 1, 2]]
  {
    BuildGroupsCase1(Dict([0, 1, 2], map[0 := 1, 1 := 1, 2 := 1]), map[0 := 0, 1 := 1, 2 := 0]);
  }

  /** _build_groups({0: 1, 1: 1, 2: 2}) == [[0, 1], [2]] */
  lemma BuildGroupsExample2()
    ensures var d: Dict<nat, nat>, h: map<nat, int> := Dict([0, 1, 2], map[0 := 1, 1 := 1, 2 := 2]), map[0 := 0, 1 := 1, 2 := 0];
      d.Valid() && Forest(d.entries, h) && Classify(d.keys, Roots(d.entries, h, d.keys)) == [[0, 1], [2]]
  {
    BuildGroupsCase2(Dict([0, 1, 2], map[0 := 1, 1 := 1, 2 := 2]), map[0 := 0, 1 := 1, 2 := 0]);
  }

  /** _build_groups({0: 1, 1: 1, 2: 0}) == [[0, 1, 2]] */
  lemma BuildGroupsExample3()
    ensures var d: Dict<nat, nat>, h: map<nat, int> := Dict([0, 1, 2], map[0 := 1, 1 := 1, 2 := 0]), map[0 := 1, 1 := 2, 2 := 0];
      d.Valid() && Forest(d.entries, h) && Classify(d.keys, Roots(d.entries, h, d.keys)) == [[0, 1, 2]]
  {
    BuildGroupsCase3(Dict([0, 1, 2], map[0 := 1, 1 := 1, 2 := 0]), map[0 := 1, 1 := 2, 2 := 0]);
  }

  /** _build_groups({0: 0, 1: 1, 2: 2, 3: 3}) == [[0], [1], [2], [3]] */
  lemma BuildGroupsExample4()
    ensures var d: Dict<nat, nat>, h: map<nat, int> := Dict([0, 1, 2, 3], map[0 := 0, 1 := 1, 2 := 2, 3 := 3]), map[0 := 0, 1 := 0, 2 := 0, 3 := 0];
      d.Valid() && Forest(d.entries, h) && Classify(d.keys, Roots(d.entries, h, d.keys)) == [[0], [1], [2], [3]]
  {
    BuildGroupsCase4(Dict([0, 1, 2, 3], map[0 := 0, 1 := 1, 2 := 2, 3 := 3]), map[0 := 0, 1 := 0, 2 := 0, 3 := 0]);
  }

  /** _mean([2, 10] * 100) == 6 */
  lemma MeanOfAlternating()
    ensures Mean(Alternating(200)) == Ok(6)
  {
    AlternatingMean(Alternating(200));
  }

  /** group_by_proximity([0, 1, 2, 3, 4, 5, 6, 100, 200, 1000, 1001, 1002], _are_close)
      == [[0, 1, 2, 3, 4, 5, 6], [100], [200], [1000, 1001, 1002]] */
  lemma GroupByProximitySample()
    ensures Clusters([0, 1, 2, 3, 4, 5, 6, 100, 200, 1000, 1001, 1002])
      == [[0, 1, 2, 3, 4, 5, 6], [100], [200], [1000, 1001, 1002]]
  {
    SampleClusters([0, 1, 2, 3, 4, 5, 6, 100, 200, 1000, 1001, 1002]);
  }

  /** _group_ints([0, 1, 2, 3, 4, 5, 6, 100, 200, 1000, 1001, 1002]) == [3, 100, 200, 1001] */
  lemma GroupIntsSample()
    ensures ClusterMeans([0, 1, 2, 3, 4, 5, 6, 100, 200, 1000, 1001, 1002]) == [3, 100, 200, 1001]
  {
    SampleGroupInts([0, 1, 2, 3, 4, 5, 6, 100, 200, 1000, 1001, 1002]);
  }

  /** group_by_proximity([0, 0, 0, 0], _are_close) == [[0, 0, 0, 0]] */
  lemma RepeatedClusters()
    ensures Clusters([0, 0, 0, 0]) == [[0, 0, 0, 0]]
  {
    ZerosClusters([0, 0, 0, 0]);
  }

  /** _group_ints(list(range(51))) == [25] */
  lemma RangeGroupInts()
    ensures ClusterMeans(Range(51)) == [25]
  {
    RangeGroupIntsCase(51);
  }
}
