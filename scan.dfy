/** What the scan of group_by_proximity (table_extraction.py, lines 183-199)
    keeps true about the component each rank has been put in, stated over a
    map `comp` from every rank seen so far to the representative of its
    component.  Module Grouping ties `comp` to the roots of the parent map;
    here the three ways the scan changes it are shown to keep it equal to the
    connectivity of the pairs tested so far. */
module Scan {
  import opened Connectivity

  /** Two ranks joined by an edge found so far are in the same component. */
  ghost predicate EdgesJoined(n: nat, links: set<(nat, nat)>, comp: map<nat, nat>, i: nat, j: nat) {
    forall a, b {:trigger Edge(n, links, i, j, a, b)} ::
      Edge(n, links, i, j, a, b) ==> a in comp && b in comp && comp[a] == comp[b]
  }

  /** Two ranks in the same component are linked by edges found so far. */
  ghost predicate JoinedConnected(n: nat, links: set<(nat, nat)>, comp: map<nat, nat>, i: nat, j: nat) {
    forall a, b {:trigger ConnectedAt(n, links, i, j, a, b)} ::
      a in comp && b in comp && comp[a] == comp[b] ==> ConnectedAt(n, links, i, j, a, b)
  }

  /** Every representative is itself a rank seen so far. */
  ghost predicate Closed(comp: map<nat, nat>) {
    forall k :: k in comp ==> comp[k] in comp
  }

  /** The component `lower` merged into the component `upper`. */
  ghost function Relabel(comp: map<nat, nat>, lower: nat, upper: nat): (comp': map<nat, nat>)
    ensures comp'.Keys == comp.Keys
  {
    map k | k in comp :: if comp[k] == lower then upper else comp[k]
  }

  /** The one edge that testing pair (i, j) can add. */
  lemma NewEdge(n: nat, links: set<(nat, nat)>, i: nat, j: nat, a: nat, b: nat)
    requires j < i && Edge(n, links, i, j + 1, a, b) && !Edge(n, links, i, j, a, b)
    ensures (a == i && b == j) || (a == j && b == i)
    ensures i < n && (i, j) in links
  {
  }

  /** The pair (i, j) itself, once tested and found to be neighbours. */
  lemma TestedPairConnected(n: nat, links: set<(nat, nat)>, i: nat, j: nat)
    requires j < i < n && (i, j) in links
    ensures ConnectedAt(n, links, i, j + 1, i, j)
    ensures ConnectedAt(n, links, i, j + 1, j, i)
  {
    assert Edge(n, links, i, j + 1, i, j);
    EdgeConnected(n, links, i, j + 1, i, j);
    ConnectedSym(n, links, i, j + 1, i, j);
  }

  /** Chains found at one stage remain at every later stage. */
  lemma JoinedLater(n: nat, links: set<(nat, nat)>, comp: map<nat, nat>, i: nat, j: nat, i': nat, j': nat)
    requires NoLater(i, j, i', j') && JoinedConnected(n, links, comp, i, j)
    ensures JoinedConnected(n, links, comp, i', j')
  {
    forall a, b | a in comp && b in comp && comp[a] == comp[b] ensures ConnectedAt(n, links, i', j', a, b) {
      ConnectedLater(n, links, i, j, i', j', a, b);
    }
  }

  /** Testing a pair that are not neighbours adds no edge. */
  lemma EdgesSkip(n: nat, links: set<(nat, nat)>, comp: map<nat, nat>, i: nat, j: nat)
    requires j < i < n && (i, j) !in links
    requires EdgesJoined(n, links, comp, i, j)
    ensures EdgesJoined(n, links, comp, i, j + 1)
  {
    var j' := j + 1;
    forall a, b | Edge(n, links, i, j', a, b) ensures Edge(n, links, i, j, a, b) {
    }
    assert EdgesJoined(n, links, comp, i, j');
  }

  /** Ending row i adds no edge. */
  lemma EdgesNextRow(n: nat, links: set<(nat, nat)>, comp: map<nat, nat>, i: nat)
    requires EdgesJoined(n, links, comp, i, i)
    ensures EdgesJoined(n, links, comp, i + 1, 0)
  {
    var i' := i + 1;
    forall a, b | Edge(n, links, i', 0, a, b) ensures Edge(n, links, i, i, a, b) {
    }
    assert EdgesJoined(n, links, comp, i', 0);
  }

  /** Once i and j share a component and no two old ranks were separated,
      every edge up to (i, j) is inside a component. */
  lemma EdgesAdded(n: nat, links: set<(nat, nat)>, comp: map<nat, nat>, comp': map<nat, nat>, i: nat, j: nat)
    requires j < i && EdgesJoined(n, links, comp, i, j)
    requires i in comp' && j in comp' && comp'[i] == comp'[j]
    requires forall a, b :: a in comp && b in comp && comp[a] == comp[b] ==> a in comp' && b in comp' && comp'[a] == comp'[b]
    ensures EdgesJoined(n, links, comp', i, j + 1)
  {
    var j' := j + 1;
    forall a, b | Edge(n, links, i, j', a, b) ensures a in comp' && b in comp' && comp'[a] == comp'[b] {
      if !Edge(n, links, i, j, a, b) {
        NewEdge(n, links, i, j, a, b);
      }
    }
    assert EdgesJoined(n, links, comp', i, j');
  }

  /** The first neighbour j of i: i joins the component of j. */
  lemma EdgesLeaf(n: nat, links: set<(nat, nat)>, comp: map<nat, nat>, i: nat, j: nat)
    requires j < i && i !in comp && j in comp
    requires EdgesJoined(n, links, comp, i, j)
    ensures EdgesJoined(n, links, comp[i := comp[j]], i, j + 1)
  {
    EdgesAdded(n, links, comp, comp[i := comp[j]], i, j);
  }

  lemma JoinedLeaf(n: nat, links: set<(nat, nat)>, comp: map<nat, nat>, i: nat, j: nat)
    requires j < i < n && (i, j) in links
    requires i !in comp && j in comp
    requires JoinedConnected(n, links, comp, i, j)
    ensures JoinedConnected(n, links, comp[i := comp[j]], i, j + 1)
  {
    var comp' := comp[i := comp[j]];
    JoinedLater(n, links, comp, i, j, i, j + 1);
    TestedPairConnected(n, links, i, j);
    forall a, b | a in comp' && b in comp' && comp'[a] == comp'[b] ensures ConnectedAt(n, links, i, j + 1, a, b) {
      if a != i && b != i {
        assert ConnectedAt(n, links, i, j + 1, a, b);
      } else if a == i && b == i {
        ConnectedRefl(n, links, i, j + 1, i);
      } else if a == i {
        assert ConnectedAt(n, links, i, j + 1, j, b);
        ConnectedTrans(n, links, i, j + 1, i, j, b);
      } else {
        assert ConnectedAt(n, links, i, j + 1, a, j);
        ConnectedTrans(n, links, i, j + 1, a, j, i);
      }
    }
  }

  /** A further neighbour j of i in another component: the component of j is
      merged into that of i. */
  lemma EdgesLink(n: nat, links: set<(nat, nat)>, comp: map<nat, nat>, i: nat, j: nat)
    requires j < i && i in comp && j in comp
    requires EdgesJoined(n, links, comp, i, j)
    ensures EdgesJoined(n, links, Relabel(comp, comp[j], comp[i]), i, j + 1)
  {
    EdgesAdded(n, links, comp, Relabel(comp, comp[j], comp[i]), i, j);
  }

  lemma JoinedLink(n: nat, links: set<(nat, nat)>, comp: map<nat, nat>, i: nat, j: nat)
    requires j < i < n && (i, j) in links
    requires i in comp && j in comp && comp[i] != comp[j]
    requires JoinedConnected(n, links, comp, i, j)
    ensures JoinedConnected(n, links, Relabel(comp, comp[j], comp[i]), i, j + 1)
  {
    var lower, upper := comp[j], comp[i];
    var comp' := Relabel(comp, lower, upper);
    JoinedLater(n, links, comp, i, j, i, j + 1);
    TestedPairConnected(n, links, i, j);
    forall a, b | a in comp' && b in comp' && comp'[a] == comp'[b] ensures ConnectedAt(n, links, i, j + 1, a, b) {
      if comp[a] == comp[b] {
        assert ConnectedAt(n, links, i, j + 1, a, b);
      } else if comp[a] == lower {
        assert ConnectedAt(n, links, i, j + 1, a, j);
        assert ConnectedAt(n, links, i, j + 1, i, b);
        ConnectedTrans(n, links, i, j + 1, a, j, i);
        ConnectedTrans(n, links, i, j + 1, a, i, b);
      } else {
        assert ConnectedAt(n, links, i, j + 1, a, i);
        assert ConnectedAt(n, links, i, j + 1, j, b);
        ConnectedTrans(n, links, i, j + 1, a, i, j);
        ConnectedTrans(n, links, i, j + 1, a, j, b);
      }
    }
  }

  /** No neighbour below i: i starts a component of its own. */
  lemma EdgesNewRoot(n: nat, links: set<(nat, nat)>, comp: map<nat, nat>, i: nat)
    requires i !in comp && EdgesJoined(n, links, comp, i, i)
    ensures EdgesJoined(n, links, comp[i := i], i, i)
  {
  }

  lemma JoinedNewRoot(n: nat, links: set<(nat, nat)>, comp: map<nat, nat>, i: nat)
    requires i !in comp && Closed(comp)
    requires JoinedConnected(n, links, comp, i, i)
    ensures JoinedConnected(n, links, comp[i := i], i, i)
  {
    var comp' := comp[i := i];
    forall a, b | a in comp' && b in comp' && comp'[a] == comp'[b] ensures ConnectedAt(n, links, i, i, a, b) {
      if a == i || b == i {
        assert a == b;
        ConnectedRefl(n, links, i, i, a);
      } else {
        assert ConnectedAt(n, links, i, i, a, b);
      }
    }
  }

  /** Ranks joined by a chain of edges are in the same component. */
  lemma {:induction false} ComponentAlongPath(n: nat, links: set<(nat, nat)>, comp: map<nat, nat>, p: seq<nat>)
    requires EdgesJoined(n, links, comp, n, 0)
    requires IsPath(n, links, n, 0, p) && p[0] in comp
    ensures p[|p| - 1] in comp && comp[p[0]] == comp[p[|p| - 1]]
  {
    if |p| > 1 {
      assert Step(n, links, n, 0, p, 0);
      forall t: nat | t < |p| - 2 ensures Step(n, links, n, 0, p[1..], t) {
        assert Step(n, links, n, 0, p, t + 1);
      }
      ComponentAlongPath(n, links, comp, p[1..]);
    }
  }

  // ---------------------------------------------------------------------------
  // The two together, through each step of the scan

  /** What the scan knows about the components when it is about to test pair
      (i, j): every edge found so far lies inside a component, and every
      component is linked by edges found so far. */
  ghost predicate Tracked(n: nat, links: set<(nat, nat)>, comp: map<nat, nat>, i: nat, j: nat) {
    EdgesJoined(n, links, comp, i, j) && JoinedConnected(n, links, comp, i, j)
  }

  lemma TrackedSkip(n: nat, links: set<(nat, nat)>, comp: map<nat, nat>, i: nat, j: nat)
    requires j < i < n && (i, j) !in links && Tracked(n, links, comp, i, j)
    ensures Tracked(n, links, comp, i, j + 1)
  {
    EdgesSkip(n, links, comp, i, j);
    JoinedLater(n, links, comp, i, j, i, j + 1);
  }

  lemma TrackedLeaf(n: nat, links: set<(nat, nat)>, comp: map<nat, nat>, i: nat, j: nat)
    requires j < i < n && (i, j) in links && i !in comp && j in comp && Tracked(n, links, comp, i, j)
    ensures Tracked(n, links, comp[i := comp[j]], i, j + 1)
  {
    EdgesLeaf(n, links, comp, i, j);
    JoinedLeaf(n, links, comp, i, j);
  }

  lemma TrackedSame(n: nat, links: set<(nat, nat)>, comp: map<nat, nat>, i: nat, j: nat)
    requires j < i < n && i in comp && j in comp && comp[i] == comp[j] && Tracked(n, links, comp, i, j)
    ensures Tracked(n, links, comp, i, j + 1)
  {
    EdgesAdded(n, links, comp, comp, i, j);
    JoinedLater(n, links, comp, i, j, i, j + 1);
  }

  lemma TrackedLink(n: nat, links: set<(nat, nat)>, comp: map<nat, nat>, i: nat, j: nat)
    requires j < i < n && (i, j) in links && i in comp && j in comp && comp[i] != comp[j]
    requires Tracked(n, links, comp, i, j)
    ensures Tracked(n, links, Relabel(comp, comp[j], comp[i]), i, j + 1)
  {
    EdgesLink(n, links, comp, i, j);
    JoinedLink(n, links, comp, i, j);
  }

  lemma TrackedNewRoot(n: nat, links: set<(nat, nat)>, comp: map<nat, nat>, i: nat)
    requires i !in comp && Closed(comp) && Tracked(n, links, comp, i, i)
    ensures Tracked(n, links, comp[i := i], i, i)
  {
    EdgesNewRoot(n, links, comp, i);
    JoinedNewRoot(n, links, comp, i);
  }

  lemma TrackedNextRow(n: nat, links: set<(nat, nat)>, comp: map<nat, nat>, i: nat)
    requires Tracked(n, links, comp, i, i)
    ensures Tracked(n, links, comp, i + 1, 0)
  {
    EdgesNextRow(n, links, comp, i);
    JoinedLater(n, links, comp, i, i, i + 1, 0);
  }
}
