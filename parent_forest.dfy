/** The parent map that group_by_proximity builds (table_extraction.py,
    lines 183-199) and that _get_highest_ascendant walks.  The Python map
    carries no ranks; the ghost `height` below exists only to show that the map
    always stays a forest whose roots are self-loops, so the walk ends. */
module ParentForest {

  /** Every parent is a key, and a key that is not its own parent sits strictly
      lower than its parent. */
  ghost predicate Forest(parent: map<nat, nat>, height: map<nat, int>) {
    && parent.Keys == height.Keys
    && forall k {:trigger ForestAt(parent, height, k)} :: k in parent ==> ForestAt(parent, height, k)
  }

  /** Key k's parent is a key, and unless k is a root it sits higher than k. */
  ghost predicate ForestAt(parent: map<nat, nat>, height: map<nat, int>, k: nat)
    requires k in parent && k in height
  {
    parent[k] in parent && (parent[k] != k ==> parent[k] in height && height[k] < height[parent[k]])
  }

  /** The keys strictly higher than x; it shrinks at every step up. */
  ghost function Above(parent: map<nat, nat>, height: map<nat, int>, x: nat): set<nat>
    requires Forest(parent, height) && x in parent
  {
    set k | k in parent && height[k] > height[x]
  }

  /** The first key on the parent chain from x that is its own parent. */
  ghost function Root(parent: map<nat, nat>, height: map<nat, int>, x: nat): (r: nat)
    requires Forest(parent, height) && x in parent
    ensures r in parent && parent[r] == r
    decreases Above(parent, height, x)
  {
    if parent[x] == x then x
    else
      assert ForestAt(parent, height, x);
      assert parent[x] in Above(parent, height, x) - Above(parent, height, parent[x]);
      Root(parent, height, parent[x])
  }

  /** The heights after root `lower` is hung below root `upper`. */
  ghost function Raise(height: map<nat, int>, lower: nat, upper: nat): map<nat, int>
    requires lower in height && upper in height
  {
    height[upper := if height[upper] > height[lower] then height[upper] else height[lower] + 1]
  }

  /** Pointing one root at another root keeps a forest. */
  lemma LinkKeepsForest(parent: map<nat, nat>, height: map<nat, int>, lower: nat, upper: nat)
    requires Forest(parent, height)
    requires lower in parent && parent[lower] == lower
    requires upper in parent && parent[upper] == upper && lower != upper
    ensures Forest(parent[lower := upper], Raise(height, lower, upper))
  {
    var parent', height' := parent[lower := upper], Raise(height, lower, upper);
    forall k | k in parent' ensures ForestAt(parent', height', k) {
      assert ForestAt(parent, height, k);
    }
  }

  /** After root `lower` is pointed at root `upper`, exactly the keys whose
      root was `lower` have root `upper`; every other root is unchanged. */
  lemma {:induction false} RootAfterLink(parent: map<nat, nat>, height: map<nat, int>, lower: nat, upper: nat, x: nat)
    requires Forest(parent, height)
    requires lower in parent && parent[lower] == lower
    requires upper in parent && parent[upper] == upper && lower != upper
    requires x in parent
    ensures Forest(parent[lower := upper], Raise(height, lower, upper))
    ensures Root(parent[lower := upper], Raise(height, lower, upper), x)
         == if Root(parent, height, x) == lower then upper else Root(parent, height, x)
    decreases Above(parent, height, x)
  {
    LinkKeepsForest(parent, height, lower, upper);
    var parent', height' := parent[lower := upper], Raise(height, lower, upper);
    if parent[x] == x {
      if x == lower {
        assert Root(parent', height', upper) == upper;
      }
    } else {
      assert ForestAt(parent, height, x);
      assert parent[x] in Above(parent, height, x) - Above(parent, height, parent[x]);
      RootAfterLink(parent, height, lower, upper, parent[x]);
    }
  }

  /** RootAfterLink for every key at once. */
  lemma RootsAfterLink(parent: map<nat, nat>, height: map<nat, int>, lower: nat, upper: nat)
    requires Forest(parent, height)
    requires lower in parent && parent[lower] == lower
    requires upper in parent && parent[upper] == upper && lower != upper
    ensures Forest(parent[lower := upper], Raise(height, lower, upper))
    ensures forall x :: x in parent ==>
      Root(parent[lower := upper], Raise(height, lower, upper), x)
        == if Root(parent, height, x) == lower then upper else Root(parent, height, x)
  {
    LinkKeepsForest(parent, height, lower, upper);
    forall x | x in parent
      ensures Root(parent[lower := upper], Raise(height, lower, upper), x)
           == if Root(parent, height, x) == lower then upper else Root(parent, height, x)
    {
      RootAfterLink(parent, height, lower, upper, x);
    }
  }

  /** Adding a fresh key below an existing key keeps a forest. */
  lemma LeafKeepsForest(parent: map<nat, nat>, height: map<nat, int>, leaf: nat, target: nat)
    requires Forest(parent, height) && leaf !in parent && target in parent
    ensures Forest(parent[leaf := target], height[leaf := height[target] - 1])
  {
    var parent', height' := parent[leaf := target], height[leaf := height[target] - 1];
    forall x | x in parent' ensures ForestAt(parent', height', x) {
      if x != leaf {
        assert ForestAt(parent, height, x);
      }
    }
  }

  /** Adding a fresh key below an existing key leaves the old roots unchanged. */
  lemma {:induction false} RootAfterLeafOld(parent: map<nat, nat>, height: map<nat, int>, leaf: nat, target: nat, x: nat)
    requires Forest(parent, height)
    requires leaf !in parent && target in parent && x in parent
    ensures Forest(parent[leaf := target], height[leaf := height[target] - 1])
    ensures Root(parent[leaf := target], height[leaf := height[target] - 1], x) == Root(parent, height, x)
    decreases Above(parent, height, x)
  {
    LeafKeepsForest(parent, height, leaf, target);
    if parent[x] != x {
      assert ForestAt(parent, height, x);
      assert parent[x] in Above(parent, height, x) - Above(parent, height, parent[x]);
      RootAfterLeafOld(parent, height, leaf, target, parent[x]);
    }
  }

  /** ... and the new key shares the root of its parent. */
  lemma RootAfterLeaf(parent: map<nat, nat>, height: map<nat, int>, leaf: nat, target: nat, x: nat)
    requires Forest(parent, height)
    requires leaf !in parent && target in parent && x in parent
    ensures Forest(parent[leaf := target], height[leaf := height[target] - 1])
    ensures Root(parent[leaf := target], height[leaf := height[target] - 1], x) == Root(parent, height, x)
    ensures Root(parent[leaf := target], height[leaf := height[target] - 1], leaf) == Root(parent, height, target)
  {
    RootAfterLeafOld(parent, height, leaf, target, x);
    RootAfterLeafOld(parent, height, leaf, target, target);
  }

  /** A fresh key added as its own root keeps a forest, and is its own root. */
  lemma NewRootKeepsForest(parent: map<nat, nat>, height: map<nat, int>, k: nat)
    requires Forest(parent, height) && k !in parent
    ensures Forest(parent[k := k], height[k := 0])
    ensures Root(parent[k := k], height[k := 0], k) == k
  {
    var parent', height' := parent[k := k], height[k := 0];
    forall x | x in parent' ensures ForestAt(parent', height', x) {
      if x != k {
        assert ForestAt(parent, height, x);
      }
    }
  }

  /** Adding a fresh key as its own root leaves every other root unchanged. */
  lemma {:induction false} RootAfterNewRoot(parent: map<nat, nat>, height: map<nat, int>, k: nat, x: nat)
    requires Forest(parent, height)
    requires k !in parent && x in parent
    ensures Forest(parent[k := k], height[k := 0])
    ensures Root(parent[k := k], height[k := 0], x) == Root(parent, height, x)
    ensures Root(parent[k := k], height[k := 0], k) == k
    decreases Above(parent, height, x)
  {
    NewRootKeepsForest(parent, height, k);
    if parent[x] != x {
      assert ForestAt(parent, height, x);
      assert parent[x] in Above(parent, height, x) - Above(parent, height, parent[x]);
      RootAfterNewRoot(parent, height, k, parent[x]);
    }
  }
}
