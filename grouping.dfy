/** Grouping by proximity (table_extraction.py, lines 160-199): the parent map
    that group_by_proximity fills while it scans every pair of elements, the
    walk up that map (_get_highest_ascendant), the reversal of a dict
    (_revert_dict) and the groups read off the map (_build_groups).

    Each method is proved against the connected-components specification of
    module Connectivity: group_by_proximity returns the components of the
    "are neighbours" graph, each in input order, the components ordered by
    their first element. */
module Grouping {
  import opened Builtins
  import opened PyDict
  import opened ParentForest
  import opened Partition
  import opened Connectivity
  import opened Scan

  /** _get_highest_ascendant: follows the parents from element until it
      reaches a key that is its own parent. */
  method GetHighestAscendant(element: nat, elementToParent: map<nat, nat>, ghost height: map<nat, int>)
    returns (root: nat)
    requires Forest(elementToParent, height) && element in elementToParent
    ensures root == Root(elementToParent, height, element)
    ensures root in elementToParent && elementToParent[root] == root
  {
    var parent := elementToParent[element];
    var previousParent := element;
    while parent != previousParent
      invariant previousParent in elementToParent && parent == elementToParent[previousParent]
      invariant Root(elementToParent, height, previousParent) == Root(elementToParent, height, element)
      decreases Above(elementToParent, height, previousParent)
    {
      assert ForestAt(elementToParent, height, previousParent);
      assert parent in Above(elementToParent, height, previousParent) - Above(elementToParent, height, parent);
      previousParent := parent;
      parent := elementToParent[parent];
    }
    root := parent;
  }

  /** What _revert_dict has built after the first t entries of the input. */
  ghost predicate RevertedPrefix(keys: seq<nat>, values: seq<nat>, groupToElements: Dict<nat, seq<nat>>, t: nat)
    requires |keys| == |values| && t <= |keys|
  {
    && groupToElements.Valid()
    && groupToElements.keys == Distinct(values[..t])
    && forall g :: g in groupToElements.entries ==>
         groupToElements.entries[g] == Select(keys[..t], values[..t], g)
  }

  /** One more entry: d is the dict once the group of entry t is present. */
  lemma RevertStep(keys: seq<nat>, values: seq<nat>, before: Dict<nat, seq<nat>>, d: Dict<nat, seq<nat>>, t: nat)
    requires |keys| == |values| && t < |keys|
    requires RevertedPrefix(keys, values, before, t)
    requires d == if values[t] !in before.entries then before.Put(values[t], []) else before
    ensures d.Valid() && values[t] in d.entries
    ensures RevertedPrefix(keys, values, d.Put(values[t], d.entries[values[t]] + [keys[t]]), t + 1)
  {
    assert keys[..t + 1][..t] == keys[..t] && values[..t + 1][..t] == values[..t];
    if values[t] !in before.entries {
      SelectAbsent(keys[..t], values[..t], values[t]);
    }
  }

  lemma RevertedAll(keys: seq<nat>, values: seq<nat>, groupToElements: Dict<nat, seq<nat>>)
    requires |keys| == |values|
    requires RevertedPrefix(keys, values, groupToElements, |keys|)
    ensures groupToElements.Valid()
    ensures groupToElements.keys == Distinct(values)
    ensures groupToElements.Values() == Classify(keys, values)
  {
    assert keys[..|keys|] == keys && values[..|values|] == values;
  }

  /** _revert_dict: the keys grouped by their value.  The groups come in the
      order in which their value first appears, and each group lists its keys
      in dict order. */
  method RevertDict(input: Dict<nat, nat>) returns (groupToElements: Dict<nat, seq<nat>>)
    requires input.Valid()
    ensures groupToElements.Valid()
    ensures groupToElements.keys == Distinct(input.Values())
    ensures groupToElements.Values() == Classify(input.keys, input.Values())
  {
    var keys, values := input.keys, input.Values();
    groupToElements := EmptyDict();
    for t := 0 to |keys|
      invariant RevertedPrefix(keys, values, groupToElements, t)
    {
      ghost var before := groupToElements;
      var element, group := keys[t], values[t];
      if group !in groupToElements.entries {
        groupToElements := groupToElements.Put(group, []);
      }
      RevertStep(keys, values, before, groupToElements, t);
      groupToElements := groupToElements.Put(group, groupToElements.entries[group] + [element]);
    }
    RevertedAll(keys, values, groupToElements);
  }

  /** The root of every key, in key order. */
  ghost function Roots(elementToParent: map<nat, nat>, height: map<nat, int>, keys: seq<nat>): (roots: seq<nat>)
    requires Forest(elementToParent, height)
    requires forall t :: 0 <= t < |keys| ==> keys[t] in elementToParent
    ensures |roots| == |keys|
    ensures forall t :: 0 <= t < |keys| ==> roots[t] == Root(elementToParent, height, keys[t])
  {
    seq(|keys|, t requires 0 <= t < |keys| => Root(elementToParent, height, keys[t]))
  }

  /** What _build_groups has built after the first t keys: each maps to its
      entry of roots. */
  ghost predicate RootedPrefix(keys: seq<nat>, roots: seq<nat>, elementToGroup: Dict<nat, nat>, t: nat)
    requires t <= |keys| == |roots|
  {
    && elementToGroup.Valid()
    && elementToGroup.keys == keys[..t]
    && forall u :: 0 <= u < t ==> keys[u] in elementToGroup.entries && elementToGroup.entries[keys[u]] == roots[u]
  }

  lemma RootedStep(elementToParent: Dict<nat, nat>, height: map<nat, int>, roots: seq<nat>,
                   elementToGroup: Dict<nat, nat>, t: nat, root: nat)
    requires elementToParent.Valid() && Forest(elementToParent.entries, height)
    requires t < |elementToParent.keys| && elementToParent.keys[t] in elementToParent.entries
    requires roots == Roots(elementToParent.entries, height, elementToParent.keys)
    requires root == Root(elementToParent.entries, height, elementToParent.keys[t])
    requires RootedPrefix(elementToParent.keys, roots, elementToGroup, t)
    ensures RootedPrefix(elementToParent.keys, roots, elementToGroup.Put(elementToParent.keys[t], root), t + 1)
  {
    var keys, t' := elementToParent.keys, t + 1;
    elementToParent.NotEarlier(t);
    assert keys[..t'] == keys[..t] + [keys[t]];
    assert RootedPrefix(keys, roots, elementToGroup.Put(keys[t], root), t');
  }

  lemma RootedAll(keys: seq<nat>, roots: seq<nat>, elementToGroup: Dict<nat, nat>)
    requires |keys| == |roots|
    requires RootedPrefix(keys, roots, elementToGroup, |keys|)
    ensures elementToGroup.keys == keys
    ensures elementToGroup.Values() == roots
  {
    assert keys[..|keys|] == keys;
  }

  lemma KeysIn(d: Dict<nat, nat>)
    requires d.Valid()
    ensures forall t :: 0 <= t < |d.keys| ==> d.keys[t] in d.entries
  {
  }

  /** The comprehension at the start of _build_groups: every key mapped to
      its root, in dict order. */
  method RootOfEach(elementToParent: Dict<nat, nat>, ghost height: map<nat, int>) returns (elementToGroup: Dict<nat, nat>)
    requires elementToParent.Valid() && Forest(elementToParent.entries, height)
    ensures forall t :: 0 <= t < |elementToParent.keys| ==> elementToParent.keys[t] in elementToParent.entries
    ensures elementToGroup.Valid() && elementToGroup.keys == elementToParent.keys
    ensures elementToGroup.Values() == Roots(elementToParent.entries, height, elementToParent.keys)
  {
    var keys := elementToParent.keys;
    KeysIn(elementToParent);
    ghost var roots := Roots(elementToParent.entries, height, keys);
    elementToGroup := EmptyDict();
    for t := 0 to |keys|
      invariant RootedPrefix(keys, roots, elementToGroup, t)
    {
      var root := GetHighestAscendant(keys[t], elementToParent.entries, height);
      RootedStep(elementToParent, height, roots, elementToGroup, t, root);
      elementToGroup := elementToGroup.Put(keys[t], root);
    }
    RootedAll(keys, roots, elementToGroup);
  }

  /** _build_groups: the keys grouped by their root, in dict order. */
  method BuildGroups(elementToParent: Dict<nat, nat>, ghost height: map<nat, int>) returns (groups: seq<seq<nat>>)
    requires elementToParent.Valid() && Forest(elementToParent.entries, height)
    ensures forall t :: 0 <= t < |elementToParent.keys| ==> elementToParent.keys[t] in elementToParent.entries
    ensures groups == Classify(elementToParent.keys, Roots(elementToParent.entries, height, elementToParent.keys))
  {
    var elementToGroup := RootOfEach(elementToParent, height);
    var groupToElements := RevertDict(elementToGroup);
    groups := groupToElements.Values();
  }

  // ---------------------------------------------------------------------------
  // What the scan of group_by_proximity keeps true

  /** comp maps every key to its root. */
  ghost predicate RootsAre(parent: map<nat, nat>, height: map<nat, int>, comp: map<nat, nat>)
    requires Forest(parent, height)
  {
    && comp.Keys == parent.Keys
    && forall k :: k in comp ==> comp[k] == Root(parent, height, k)
  }

  lemma RootsClosed(parent: map<nat, nat>, height: map<nat, int>, comp: map<nat, nat>)
    requires Forest(parent, height) && RootsAre(parent, height, comp)
    ensures Closed(comp)
  {
  }

  /** Rank i hung below its first neighbour j. */
  lemma RootsLeaf(parent: map<nat, nat>, height: map<nat, int>, comp: map<nat, nat>, i: nat, j: nat)
    requires Forest(parent, height) && RootsAre(parent, height, comp) && i !in parent && j in parent
    ensures Forest(parent[i := j], height[i := height[j] - 1])
    ensures RootsAre(parent[i := j], height[i := height[j] - 1], comp[i := comp[j]])
  {
    RootAfterLeaf(parent, height, i, j, j);
    forall k | k in parent ensures Root(parent[i := j], height[i := height[j] - 1], k) == Root(parent, height, k) {
      RootAfterLeaf(parent, height, i, j, k);
    }
  }

  /** Root `lower` hung below root `upper`. */
  lemma RootsLink(parent: map<nat, nat>, height: map<nat, int>, comp: map<nat, nat>, lower: nat, upper: nat)
    requires Forest(parent, height) && RootsAre(parent, height, comp)
    requires lower in parent && parent[lower] == lower
    requires upper in parent && parent[upper] == upper && lower != upper
    ensures Forest(parent[lower := upper], Raise(height, lower, upper))
    ensures RootsAre(parent[lower := upper], Raise(height, lower, upper), Relabel(comp, lower, upper))
  {
    var parent', height', comp' := parent[lower := upper], Raise(height, lower, upper), Relabel(comp, lower, upper);
    RootsAfterLink(parent, height, lower, upper);
    assert comp'.Keys == parent'.Keys;
    forall k | k in comp' ensures comp'[k] == Root(parent', height', k) {
      assert comp'[k] == if comp[k] == lower then upper else comp[k];
      assert comp[k] == Root(parent, height, k);
    }
  }

  /** Rank i made a root of its own. */
  lemma RootsNewRoot(parent: map<nat, nat>, height: map<nat, int>, comp: map<nat, nat>, i: nat)
    requires Forest(parent, height) && RootsAre(parent, height, comp) && i !in parent
    ensures Forest(parent[i := i], height[i := 0])
    ensures RootsAre(parent[i := i], height[i := 0], comp[i := i])
  {
    var parent', height', comp' := parent[i := i], height[i := 0], comp[i := i];
    NewRootKeepsForest(parent, height, i);
    forall k | k in comp' ensures comp'[k] == Root(parent', height', k) {
      if k != i {
        RootAfterNewRoot(parent, height, i, k);
      }
    }
  }

  /** The state of element_to_group when the scan is about to test pair (i, j):
      its keys are the ranks below i, and i once a neighbour of i has been
      found; comp maps each key to its root; and two keys share a root exactly
      when the pairs tested so far link them. */
  ghost predicate Scanning(n: nat, links: set<(nat, nat)>, elementToGroup: Dict<nat, nat>,
                           height: map<nat, int>, comp: map<nat, nat>, i: nat, j: nat)
  {
    && j <= i <= n
    && Shaped(elementToGroup, height, comp, i)
    && Tracked(n, links, comp, i, j)
  }

  /** The map is a forest over the ranks below i, and i when it has been
      placed, and comp gives each key its root. */
  ghost predicate Shaped(elementToGroup: Dict<nat, nat>, height: map<nat, int>, comp: map<nat, nat>, i: nat) {
    && elementToGroup.Valid()
    && Forest(elementToGroup.entries, height)
    && RootsAre(elementToGroup.entries, height, comp)
    && (elementToGroup.keys == Range(i) || elementToGroup.keys == Range(i + 1))
  }

  lemma RangeMembers(n: nat)
    ensures forall k: nat :: k in Range(n) <==> k < n
  {
    forall k: nat | k in Range(n) ensures k < n {
      var t :| 0 <= t < n && Range(n)[t] == k;
    }
    forall k: nat | k < n ensures k in Range(n) {
      assert Range(n)[k] == k;
    }
  }

  /** While the scan is in row i, every earlier rank is a key. */
  lemma ShapedKeys(d: Dict<nat, nat>, height: map<nat, int>, comp: map<nat, nat>, i: nat)
    requires Shaped(d, height, comp, i)
    ensures forall k: nat :: k < i ==> k in d.entries && k in comp
    ensures i in comp <==> i in d.entries
    ensures i !in d.entries ==> d.keys == Range(i)
    ensures i in d.entries ==> d.keys == Range(i + 1)
  {
    RangeMembers(i);
    RangeMembers(i + 1);
  }

  /** Rank i hung below rank j. */
  lemma ShapedLeaf(d: Dict<nat, nat>, height: map<nat, int>, comp: map<nat, nat>, i: nat, j: nat)
    requires Shaped(d, height, comp, i) && j < i && i !in d.entries
    ensures j in d.entries && j in comp && i !in comp
    ensures Shaped(d.Put(i, j), height[i := height[j] - 1], comp[i := comp[j]], i)
  {
    ShapedKeys(d, height, comp, i);
    assert d.Put(i, j).keys == Range(i + 1) by {
      RangeMembers(i + 1);
    }
    RootsLeaf(d.entries, height, comp, i, j);
  }

  /** The root of j hung below the root of i. */
  lemma ShapedLink(d: Dict<nat, nat>, height: map<nat, int>, comp: map<nat, nat>, i: nat, j: nat)
    requires Shaped(d, height, comp, i) && i in comp && j in comp && comp[i] != comp[j]
    ensures Shaped(d.Put(comp[j], comp[i]), Raise(height, comp[j], comp[i]), Relabel(comp, comp[j], comp[i]), i)
  {
    var upper, lower := comp[i], comp[j];
    assert d.Put(lower, upper).keys == d.keys;
    RootsLink(d.entries, height, comp, lower, upper);
  }

  /** Rank i made a root of its own. */
  lemma ShapedNewRoot(d: Dict<nat, nat>, height: map<nat, int>, comp: map<nat, nat>, i: nat)
    requires Shaped(d, height, comp, i) && i !in d.entries
    ensures i !in comp && Closed(comp)
    ensures Shaped(d.Put(i, i), height[i := 0], comp[i := i], i)
  {
    ShapedKeys(d, height, comp, i);
    assert d.Put(i, i).keys == Range(i + 1) by {
      RangeMembers(i + 1);
    }
    RootsClosed(d.entries, height, comp);
    RootsNewRoot(d.entries, height, comp, i);
  }

  /** Row i is finished and i has been placed. */
  lemma ShapedNext(d: Dict<nat, nat>, height: map<nat, int>, comp: map<nat, nat>, i: nat)
    requires Shaped(d, height, comp, i) && i in d.entries
    ensures d.keys == Range(i + 1) && Shaped(d, height, comp, i + 1)
  {
    ShapedKeys(d, height, comp, i);
  }

  /** The first neighbour j of i: i becomes a key with parent j. */
  lemma StepLeaf(n: nat, links: set<(nat, nat)>, d: Dict<nat, nat>, height: map<nat, int>,
                 comp: map<nat, nat>, i: nat, j: nat)
    requires Scanning(n, links, d, height, comp, i, j) && j < i < n
    requires (i, j) in links && i !in d.entries
    ensures j in d.entries
    ensures Scanning(n, links, d.Put(i, j), height[i := height[j] - 1], comp[i := comp[j]], i, j + 1)
  {
    ShapedLeaf(d, height, comp, i, j);
    TrackedLeaf(n, links, comp, i, j);
  }

  /** The pair (i, j) is not neighbours: nothing changes. */
  lemma StepSkip(n: nat, links: set<(nat, nat)>, d: Dict<nat, nat>, height: map<nat, int>,
                 comp: map<nat, nat>, i: nat, j: nat)
    requires Scanning(n, links, d, height, comp, i, j) && j < i < n
    requires (i, j) !in links
    ensures Scanning(n, links, d, height, comp, i, j + 1)
  {
    TrackedSkip(n, links, comp, i, j);
  }

  /** A further neighbour j of i: the root of j is pointed at the root of i. */
  lemma StepUnion(n: nat, links: set<(nat, nat)>, d: Dict<nat, nat>, height: map<nat, int>,
                  comp: map<nat, nat>, i: nat, j: nat)
    requires Scanning(n, links, d, height, comp, i, j) && j < i < n
    requires (i, j) in links && i in d.entries
    ensures i in comp && j in comp && j in d.entries
    ensures comp[i] == Root(d.entries, height, i) && comp[j] == Root(d.entries, height, j)
    ensures var upper, lower := comp[i], comp[j];
      Scanning(n, links, d.Put(lower, upper),
               if lower == upper then height else Raise(height, lower, upper),
               if lower == upper then comp else Relabel(comp, lower, upper), i, j + 1)
  {
    ShapedKeys(d, height, comp, i);
    if comp[i] == comp[j] {
      PutOwnRoot(d, height, comp, j);
      TrackedSame(n, links, comp, i, j);
    } else {
      ShapedLink(d, height, comp, i, j);
      TrackedLink(n, links, comp, i, j);
    }
  }

  /** Pointing a root at itself leaves the dict as it was. */
  lemma PutOwnRoot(d: Dict<nat, nat>, height: map<nat, int>, comp: map<nat, nat>, j: nat)
    requires d.Valid() && Forest(d.entries, height) && RootsAre(d.entries, height, comp) && j in comp
    ensures d.Put(comp[j], comp[j]) == d
  {
    var r := comp[j];
    assert r == Root(d.entries, height, j) && r in d.entries && d.entries[r] == r;
    assert d.entries[r := r] == d.entries;
  }

  /** No neighbour below i: i becomes a root of its own. */
  lemma StepRoot(n: nat, links: set<(nat, nat)>, d: Dict<nat, nat>, height: map<nat, int>,
                 comp: map<nat, nat>, i: nat)
    requires Scanning(n, links, d, height, comp, i, i) && i < n
    requires i !in d.entries
    ensures Scanning(n, links, d.Put(i, i), height[i := 0], comp[i := i], i, i)
  {
    ShapedNewRoot(d, height, comp, i);
    TrackedNewRoot(n, links, comp, i);
  }

  /** Row i is finished: the scan moves on to row i + 1. */
  lemma StepNext(n: nat, links: set<(nat, nat)>, d: Dict<nat, nat>, height: map<nat, int>,
                 comp: map<nat, nat>, i: nat)
    requires Scanning(n, links, d, height, comp, i, i) && i < n
    requires i in d.entries
    ensures Scanning(n, links, d, height, comp, i + 1, 0) && d.keys == Range(i + 1)
  {
    ShapedNext(d, height, comp, i);
    TrackedNextRow(n, links, comp, i);
  }

  /** Once every pair has been tested, two ranks share a root exactly when they
      are connected. */
  lemma ScanComplete(n: nat, links: set<(nat, nat)>, d: Dict<nat, nat>, height: map<nat, int>,
                     comp: map<nat, nat>)
    requires Scanning(n, links, d, height, comp, n, 0) && d.keys == Range(n)
    ensures forall t :: 0 <= t < |d.keys| ==> d.keys[t] in d.entries
    ensures SameClasses(Roots(d.entries, height, d.keys), ComponentLabels(n, links))
  {
    RangeMembers(n);
    var roots, labels := Roots(d.entries, height, d.keys), ComponentLabels(n, links);
    forall a, b | 0 <= a < n && 0 <= b < n ensures roots[a] == roots[b] <==> labels[a] == labels[b] {
      FirstConnectedSame(n, links, a, b);
      assert d.keys[a] == a && d.keys[b] == b;
      assert roots[a] == comp[a] && roots[b] == comp[b];
      if Connected(n, links, a, b) {
        var p :| IsPath(n, links, n, 0, p) && p[0] == a && p[|p| - 1] == b;
        ComponentAlongPath(n, links, comp, p);
      }
      if comp[a] == comp[b] {
        assert ConnectedAt(n, links, n, 0, a, b);
      }
    }
  }

  // ---------------------------------------------------------------------------
  // The result

  /** The index groups: the components of the neighbour graph, each listed in
      ascending order, the components ordered by their first index. */
  ghost function ProximityIndexGroups(n: nat, links: set<(nat, nat)>): (groups: seq<seq<nat>>)
    ensures forall u, t :: 0 <= u < |groups| && 0 <= t < |groups[u]| ==> groups[u][t] < n
  {
    Classes(ComponentLabels(n, links))
  }

  /** The same groups, holding the elements instead of their ranks. */
  ghost function ProximityGroups<T>(elements: seq<T>, areNeighbors: (T, T) -> bool): seq<seq<T>> {
    Project(elements, ProximityIndexGroups(|elements|, Links(elements, areNeighbors)))
  }

  /** The inner loop of group_by_proximity: element `rank` is compared with
      every earlier element in order; the first neighbour becomes its parent,
      and each further neighbour's tree is hung below the tree of `rank`. */
  method LinkToEarlier<T>(elements: seq<T>, areNeighbors: (T, T) -> bool, rank: nat, elementToGroup: Dict<nat, nat>,
                          ghost height: map<nat, int>, ghost comp: map<nat, nat>)
    returns (elementToGroup': Dict<nat, nat>, ghost height': map<nat, int>, ghost comp': map<nat, nat>)
    requires rank < |elements|
    requires Scanning(|elements|, Links(elements, areNeighbors), elementToGroup, height, comp, rank, 0)
    ensures Scanning(|elements|, Links(elements, areNeighbors), elementToGroup', height', comp', rank, rank)
  {
    ghost var n, links := |elements|, Links(elements, areNeighbors);
    elementToGroup', height', comp' := elementToGroup, height, comp;
    for rank_ := 0 to rank
      invariant Scanning(n, links, elementToGroup', height', comp', rank, rank_)
    {
      if areNeighbors(elements[rank], elements[rank_]) {
        if rank !in elementToGroup'.entries {
          StepLeaf(n, links, elementToGroup', height', comp', rank, rank_);
          height', comp' := height'[rank := height'[rank_] - 1], comp'[rank := comp'[rank_]];
          elementToGroup' := elementToGroup'.Put(rank, rank_);
        } else {
          StepUnion(n, links, elementToGroup', height', comp', rank, rank_);
          var upper := GetHighestAscendant(rank, elementToGroup'.entries, height');
          var lower := GetHighestAscendant(rank_, elementToGroup'.entries, height');
          height' := if lower == upper then height' else Raise(height', lower, upper);
          comp' := if lower == upper then comp' else Relabel(comp', lower, upper);
          elementToGroup' := elementToGroup'.Put(lower, upper);
        }
      } else {
        StepSkip(n, links, elementToGroup', height', comp', rank, rank_);
      }
    }
  }

  /** group_by_proximity: the elements grouped into the components of the
      graph that links every later element to each earlier one it is a
      neighbour of. */
  method GroupByProximity<T>(elements: seq<T>, areNeighbors: (T, T) -> bool) returns (groups: seq<seq<T>>)
    ensures groups == ProximityGroups(elements, areNeighbors)
  {
    ghost var n, links := |elements|, Links(elements, areNeighbors);
    if |elements| == 0 {
      return [];
    }
    var elementToGroup: Dict<nat, nat> := EmptyDict();
    ghost var height: map<nat, int> := map[];
    ghost var comp: map<nat, nat> := map[];
    for rank := 0 to |elements|
      invariant Scanning(n, links, elementToGroup, height, comp, rank, 0)
      invariant elementToGroup.keys == Range(rank)
    {
      elementToGroup, height, comp := LinkToEarlier(elements, areNeighbors, rank, elementToGroup, height, comp);
      if rank !in elementToGroup.entries {
        StepRoot(n, links, elementToGroup, height, comp, rank);
        height, comp := height[rank := 0], comp[rank := rank];
        elementToGroup := elementToGroup.Put(rank, rank);
      }
      StepNext(n, links, elementToGroup, height, comp, rank);
    }
    var indexGroups := BuildGroups(elementToGroup, height);
    ScanComplete(n, links, elementToGroup, height, comp);
    ClassesOfSameClasses(Roots(elementToGroup.entries, height, elementToGroup.keys), ComponentLabels(n, links));
    groups := Project(elements, indexGroups);
  }
  // ---------------------------------------------------------------------------
  // What the groups promise

  /** No group is empty, each lists its indices in ascending order, the groups
      are ordered by their first index, and together they hold every index
      exactly once; there are no groups exactly when there are no elements. */
  lemma ProximityIndexGroupsShape(n: nat, links: set<(nat, nat)>)
    ensures var g := ProximityIndexGroups(n, links);
      && (n == 0 <==> g == [])
      && (forall u :: 0 <= u < |g| ==> g[u] != [])
      && (forall u, a, b :: 0 <= u < |g| && 0 <= a < b < |g[u]| ==> g[u][a] < g[u][b])
      && (forall u, w :: 0 <= u < w < |g| ==> g[u][0] < g[w][0])
      && multiset(Flatten(g)) == multiset(Range(n))
  {
    var labels := ComponentLabels(n, links);
    var g := Classes(labels);
    ClassesPartition(labels);
    ClassesAscending(labels);
    ClassesOrdered(labels);
    ClassesCoverRange(labels);
    if n > 0 {
      assert Range(n)[0] in multiset(Range(n));
    }
  }

  /** Two indices in different groups are never neighbours: neither pair the
      scan tested between them was accepted. */
  lemma ProximityIndexGroupsApart(n: nat, links: set<(nat, nat)>, u: nat, w: nat, a: nat, b: nat)
    requires var g := ProximityIndexGroups(n, links);
      u < |g| && w < |g| && u != w && a in g[u] && b in g[w]
    ensures a != b && a < n && b < n
    ensures b < a ==> (a, b) !in links
    ensures a < b ==> (b, a) !in links
  {
    var g, labels := ProximityIndexGroups(n, links), ComponentLabels(n, links);
    ClassesPartition(labels);
    assert a < n && b < n && labels[a] != labels[b];
    var hi, lo := if a > b then a else b, if a > b then b else a;
    if (hi, lo) in links {
      assert Edge(n, links, n, 0, hi, lo);
      EdgeConnected(n, links, n, 0, hi, lo);
      FirstConnectedSame(n, links, hi, lo);
      assert false;
    }
  }

  /** group_by_proximity([]) == []; otherwise no group is empty and the groups
      together are a permutation of the elements. */
  lemma ProximityGroupsPermute<T>(elements: seq<T>, areNeighbors: (T, T) -> bool)
    ensures var g := ProximityGroups(elements, areNeighbors);
      && (elements == [] <==> g == [])
      && (forall u :: 0 <= u < |g| ==> g[u] != [])
      && multiset(Flatten(g)) == multiset(elements)
  {
    var n, links := |elements|, Links(elements, areNeighbors);
    ProximityIndexGroupsShape(n, links);
    ProjectClassesPermutes(elements, ComponentLabels(n, links));
  }

  /** For a symmetric neighbour test, an element is a neighbour of no element
      of another group. */
  lemma ProximityGroupsApart<T>(elements: seq<T>, areNeighbors: (T, T) -> bool, u: nat, w: nat, a: nat, b: nat)
    requires forall x, y :: areNeighbors(x, y) == areNeighbors(y, x)
    requires var g := ProximityIndexGroups(|elements|, Links(elements, areNeighbors));
      u < |g| && w < |g| && u != w && a in g[u] && b in g[w]
    ensures a < |elements| && b < |elements| && !areNeighbors(elements[a], elements[b])
  {
    var n, links := |elements|, Links(elements, areNeighbors);
    ProximityIndexGroupsApart(n, links, u, w, a, b);
    assert areNeighbors(elements[a], elements[b]) == areNeighbors(elements[b], elements[a]);
    assert a < b ==> (b, a) !in links;
  }
}
