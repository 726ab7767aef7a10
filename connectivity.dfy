/** What group_by_proximity (table_extraction.py, lines 183-199) computes,
    stated without its parent map: the connected components of the graph whose
    edges are the pairs it tests and finds to be neighbours.

    The scan visits pair (rank, rank_) for every rank_ < rank, in order of rank
    and then of rank_, and asks are_neighbors(elements[rank], elements[rank_]):
    the later element comes first.  Nothing requires are_neighbors to be
    symmetric, so the edge between a and b is that one call.  The graph is
    given by the number n of elements and the set of pairs (a, b), b < a,
    for which the call answers true. */
module Connectivity {

  /** The pairs (rank, rank_), rank_ < rank, that are_neighbors accepts. */
  ghost function Links<T>(elements: seq<T>, areNeighbors: (T, T) -> bool): (links: set<(nat, nat)>)
    ensures forall a: nat, b: nat :: (a, b) in links <==> b < a < |elements| && areNeighbors(elements[a], elements[b])
  {
    set a: nat, b: nat | b < a < |elements| && areNeighbors(elements[a], elements[b]) :: (a, b)
  }

  /** By the time the scan is about to test pair (i, j), it has tested (a, b). */
  ghost predicate Tested(i: nat, j: nat, a: nat, b: nat) {
    b < a && (a < i || (a == i && b < j))
  }

  /** Stage (i, j) comes no later than stage (i', j'). */
  ghost predicate NoLater(i: nat, j: nat, i': nat, j': nat) {
    i < i' || (i == i' && j <= j')
  }

  /** a and b are joined by a tested pair that are neighbours. */
  ghost predicate Edge(n: nat, links: set<(nat, nat)>, i: nat, j: nat, a: nat, b: nat) {
    && a < n && b < n
    && ((Tested(i, j, a, b) && (a, b) in links)
       || (Tested(i, j, b, a) && (b, a) in links))
  }

  /** Consecutive entries t and t + 1 of p are joined by an edge. */
  ghost predicate Step(n: nat, links: set<(nat, nat)>, i: nat, j: nat, p: seq<nat>, t: nat)
    requires t < |p| - 1
  {
    Edge(n, links, i, j, p[t], p[t + 1])
  }

  ghost predicate IsPath(n: nat, links: set<(nat, nat)>, i: nat, j: nat, p: seq<nat>) {
    && |p| > 0
    && forall t: nat :: t < |p| - 1 ==> Step(n, links, i, j, p, t)
  }

  /** a and b are linked by a chain of edges found before stage (i, j). */
  ghost predicate ConnectedAt(n: nat, links: set<(nat, nat)>, i: nat, j: nat, a: nat, b: nat) {
    exists p :: IsPath(n, links, i, j, p) && p[0] == a && p[|p| - 1] == b
  }

  /** a and b are linked once every pair has been tested. */
  ghost predicate Connected(n: nat, links: set<(nat, nat)>, a: nat, b: nat) {
    ConnectedAt(n, links, n, 0, a, b)
  }

  lemma ConnectedRefl(n: nat, links: set<(nat, nat)>, i: nat, j: nat, a: nat)
    ensures ConnectedAt(n, links, i, j, a, a)
  {
    assert IsPath(n, links, i, j, [a]);
  }

  lemma EdgeConnected(n: nat, links: set<(nat, nat)>, i: nat, j: nat, a: nat, b: nat)
    requires Edge(n, links, i, j, a, b)
    ensures ConnectedAt(n, links, i, j, a, b)
  {
    assert IsPath(n, links, i, j, [a, b]);
  }

  lemma ConnectedSym(n: nat, links: set<(nat, nat)>, i: nat, j: nat, a: nat, b: nat)
    requires ConnectedAt(n, links, i, j, a, b)
    ensures ConnectedAt(n, links, i, j, b, a)
  {
    var p :| IsPath(n, links, i, j, p) && p[0] == a && p[|p| - 1] == b;
    var q := seq(|p|, t requires 0 <= t < |p| => p[|p| - 1 - t]);
    forall t: nat | t < |q| - 1 ensures Step(n, links, i, j, q, t) {
      assert Step(n, links, i, j, p, |p| - 2 - t);
    }
    assert IsPath(n, links, i, j, q);
  }

  lemma ConnectedTrans(n: nat, links: set<(nat, nat)>, i: nat, j: nat, a: nat, b: nat, c: nat)
    requires ConnectedAt(n, links, i, j, a, b)
    requires ConnectedAt(n, links, i, j, b, c)
    ensures ConnectedAt(n, links, i, j, a, c)
  {
    var p :| IsPath(n, links, i, j, p) && p[0] == a && p[|p| - 1] == b;
    var q :| IsPath(n, links, i, j, q) && q[0] == b && q[|q| - 1] == c;
    var r := p + q[1..];
    forall t: nat | t < |r| - 1 ensures Step(n, links, i, j, r, t) {
      if t < |p| - 1 {
        assert r[t] == p[t] && r[t + 1] == p[t + 1] && Step(n, links, i, j, p, t);
      } else {
        assert r[t] == q[t - |p| + 1] && r[t + 1] == q[t - |p| + 2] && Step(n, links, i, j, q, t - |p| + 1);
      }
    }
    assert IsPath(n, links, i, j, r);
  }

  /** A chain found early is still there later. */
  lemma ConnectedLater(n: nat, links: set<(nat, nat)>, i: nat, j: nat, i': nat, j': nat, a: nat, b: nat)
    requires NoLater(i, j, i', j')
    requires ConnectedAt(n, links, i, j, a, b)
    ensures ConnectedAt(n, links, i', j', a, b)
  {
    var p :| IsPath(n, links, i, j, p) && p[0] == a && p[|p| - 1] == b;
    forall t: nat | t < |p| - 1 ensures Step(n, links, i', j', p, t) {
      assert Step(n, links, i, j, p, t);
    }
    assert IsPath(n, links, i', j', p);
  }

  /** The first index connected to k. */
  ghost function FirstConnected(n: nat, links: set<(nat, nat)>, k: nat): (r: nat)
    ensures r <= k && Connected(n, links, r, k)
    ensures forall m :: 0 <= m < r ==> !Connected(n, links, m, k)
  {
    FirstConnectedFrom(n, links, k, 0)
  }

  ghost function FirstConnectedFrom(n: nat, links: set<(nat, nat)>, k: nat, m: nat): (r: nat)
    requires m <= k
    ensures m <= r <= k && Connected(n, links, r, k)
    ensures forall m' :: m <= m' < r ==> !Connected(n, links, m', k)
    decreases k - m
  {
    ConnectedRefl(n, links, n, 0, k);
    if Connected(n, links, m, k) then m
    else FirstConnectedFrom(n, links, k, m + 1)
  }

  /** Two indices have the same first connected index exactly when they are
      connected. */
  lemma FirstConnectedSame(n: nat, links: set<(nat, nat)>, a: nat, b: nat)
    ensures FirstConnected(n, links, a) == FirstConnected(n, links, b)
        <==> Connected(n, links, a, b)
  {
    var ra, rb := FirstConnected(n, links, a), FirstConnected(n, links, b);
    if Connected(n, links, a, b) {
      ConnectedTrans(n, links, n, 0, ra, a, b);
      ConnectedSym(n, links, n, 0, a, b);
      ConnectedTrans(n, links, n, 0, rb, b, a);
      assert Connected(n, links, ra, b) && Connected(n, links, rb, a);
    }
    if ra == rb {
      ConnectedSym(n, links, n, 0, ra, a);
      ConnectedTrans(n, links, n, 0, a, ra, b);
    }
  }

  /** No accepted pair joins an index in S to one outside S. */
  ghost predicate Separated(links: set<(nat, nat)>, S: set<nat>) {
    forall a: nat, b: nat :: (a, b) in links ==> (a in S <==> b in S)
  }

  /** A path never leaves a separated set, nor enters it. */
  lemma {:induction false} PathStaysIn(n: nat, links: set<(nat, nat)>, i: nat, j: nat, p: seq<nat>, S: set<nat>)
    requires Separated(links, S) && IsPath(n, links, i, j, p)
    ensures p[0] in S <==> p[|p| - 1] in S
  {
    if |p| > 1 {
      var q := p[..|p| - 1];
      forall t: nat | t < |q| - 1 ensures Step(n, links, i, j, q, t) {
        assert Step(n, links, i, j, p, t);
      }
      PathStaysIn(n, links, i, j, q, S);
      assert Step(n, links, i, j, p, |p| - 2);
    }
  }

  /** An index in a separated set is connected to no index outside it. */
  lemma NotConnectedAcross(n: nat, links: set<(nat, nat)>, S: set<nat>, a: nat, b: nat)
    requires Separated(links, S) && a in S && b !in S
    ensures !Connected(n, links, a, b)
  {
    if Connected(n, links, a, b) {
      var p :| IsPath(n, links, n, 0, p) && p[0] == a && p[|p| - 1] == b;
      PathStaysIn(n, links, n, 0, p, S);
    }
  }

  /** The first index connected to k is the least one. */
  lemma FirstConnectedIs(n: nat, links: set<(nat, nat)>, k: nat, m: nat)
    requires m <= k && Connected(n, links, m, k)
    requires forall m' :: 0 <= m' < m ==> !Connected(n, links, m', k)
    ensures FirstConnected(n, links, k) == m
  {
  }

  /** Every index labelled by the first index it is connected to. */
  ghost function ComponentLabels(n: nat, links: set<(nat, nat)>): (labels: seq<nat>)
    ensures |labels| == n
    ensures forall k :: 0 <= k < n ==> labels[k] == FirstConnected(n, links, k)
  {
    seq(n, k requires 0 <= k < n => FirstConnected(n, links, k))
  }
}
