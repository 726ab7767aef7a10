/** Grouping indices by a label, as _revert_dict does with the labels that
    _build_groups computes (table_extraction.py, lines 169-180), and the facts
    that make the result a partition: every index lands in exactly one group,
    each group keeps index order, and the groups come in order of their
    first index. */
module Partition {
  import opened Builtins

  /** The distinct values of gs, in order of first occurrence. */
  function Distinct(gs: seq<nat>): (d: seq<nat>)
    ensures forall g :: g in d <==> g in gs
    ensures forall a, b :: 0 <= a < b < |d| ==> d[a] != d[b]
  {
    if gs == [] then []
    else
      assert gs == gs[..|gs| - 1] + [gs[|gs| - 1]];
      var init := Distinct(gs[..|gs| - 1]);
      if gs[|gs| - 1] in init then init else init + [gs[|gs| - 1]]
  }

  /** The ks[t] whose gs[t] is g, in order. */
  function Select(ks: seq<nat>, gs: seq<nat>, g: nat): seq<nat>
    requires |ks| == |gs|
  {
    if gs == [] then []
    else Select(ks[..|ks| - 1], gs[..|gs| - 1], g) + (if gs[|gs| - 1] == g then [ks[|ks| - 1]] else [])
  }

  /** One list per distinct value of gs, in order of first occurrence; the
      list of value g holds the ks[t] with gs[t] == g, in order. */
  function Classify(ks: seq<nat>, gs: seq<nat>): seq<seq<nat>>
    requires |ks| == |gs|
  {
    var d := Distinct(gs);
    seq(|d|, u requires 0 <= u < |d| => Select(ks, gs, d[u]))
  }

  /** The indices grouped by their label: index k goes to the group of labels[k]. */
  function Classes(labels: seq<nat>): (g: seq<seq<nat>>)
    ensures forall u, t :: 0 <= u < |g| && 0 <= t < |g[u]| ==> g[u][t] < |labels|
  {
    var g := Classify(Range(|labels|), labels);
    assert forall u, t :: 0 <= u < |g| && 0 <= t < |g[u]| ==> g[u][t] < |labels| by {
      forall u, t | 0 <= u < |g| && 0 <= t < |g[u]| ensures g[u][t] < |labels| {
        SelectIndices(labels, Distinct(labels)[u]);
        assert g[u][t] in g[u];
      }
    }
    g
  }

  /** Exactly the indices with label x, strictly ascending. */
  lemma {:induction false} SelectIndices(labels: seq<nat>, x: nat)
    ensures var r := Select(Range(|labels|), labels, x);
      && (forall k: nat :: k in r <==> k < |labels| && labels[k] == x)
      && (forall a, b :: 0 <= a < b < |r| ==> r[a] < r[b])
  {
    if labels != [] {
      var n := |labels| - 1;
      assert Range(|labels|)[..n] == Range(n);
      var r' := Select(Range(n), labels[..n], x);
      SelectIndices(labels[..n], x);
      var r := Select(Range(|labels|), labels, x);
      assert r == r' + (if labels[n] == x then [n] else []);
      forall a | 0 <= a < |r'| ensures r'[a] < n {
        assert r'[a] in r';
      }
      forall k: nat ensures k in r <==> k < |labels| && labels[k] == x {
        if k < n {
          assert labels[..n][k] == labels[k];
        }
      }
    }
  }

  /** Index k sits in the group of its label and in no other. */
  lemma ClassesMembership(labels: seq<nat>)
    ensures var g := Classes(labels);
      forall u, k: nat :: 0 <= u < |g| ==>
        (k in g[u] <==> k < |labels| && labels[k] == Distinct(labels)[u])
  {
    forall u | 0 <= u < |Classes(labels)| {
      SelectIndices(labels, Distinct(labels)[u]);
    }
  }

  /** Every group is strictly ascending. */
  lemma ClassesAscending(labels: seq<nat>)
    ensures var g := Classes(labels);
      forall u, a, b :: 0 <= u < |g| && 0 <= a < b < |g[u]| ==> g[u][a] < g[u][b]
  {
    forall u | 0 <= u < |Classes(labels)| {
      SelectIndices(labels, Distinct(labels)[u]);
    }
  }

  /** No group is empty, and two indices share a group exactly when they
      share a label. */
  lemma ClassesPartition(labels: seq<nat>)
    ensures var g := Classes(labels);
      && (forall u :: 0 <= u < |g| ==> g[u] != [])
      && (forall u, w, a, b :: 0 <= u < |g| && 0 <= w < |g| && a in g[u] && b in g[w] ==>
            (u == w <==> labels[a] == labels[b]))
  {
    var g, d := Classes(labels), Distinct(labels);
    ClassesMembership(labels);
    forall u | 0 <= u < |g| ensures g[u] != [] {
      assert d[u] in labels;
      var k :| 0 <= k < |labels| && labels[k] == d[u];
      assert k in g[u];
    }
  }

  /** r holds the index of the first occurrence of each distinct label, in order. */
  ghost predicate LeadersOf(labels: seq<nat>, r: seq<nat>) {
    && |r| == |Distinct(labels)|
    && (forall u :: 0 <= u < |r| ==> r[u] < |labels| && labels[r[u]] == Distinct(labels)[u])
    && (forall u :: 0 <= u < |r| ==> forall a :: 0 <= a < r[u] ==> labels[a] != labels[r[u]])
    && (forall u, w :: 0 <= u < w < |r| ==> r[u] < r[w])
  }

  /** The index of the first occurrence of each distinct label, in order. */
  ghost function Leaders(labels: seq<nat>): (r: seq<nat>)
    ensures |r| == |Distinct(labels)|
    ensures forall u :: 0 <= u < |r| ==> r[u] < |labels| && labels[r[u]] == Distinct(labels)[u]
    ensures forall u :: 0 <= u < |r| ==> forall a :: 0 <= a < r[u] ==> labels[a] != labels[r[u]]
    ensures forall u, w :: 0 <= u < w < |r| ==> r[u] < r[w]
  {
    if labels == [] then []
    else
      var n := |labels| - 1;
      var r := Leaders(labels[..n]);
      LeadersSnoc(labels, r);
      if labels[n] in labels[..n] then r else r + [n]
  }

  /** The leaders of all labels but the last, followed by the last index when
      its label is new, are the leaders of all labels. */
  lemma LeadersSnoc(labels: seq<nat>, r: seq<nat>)
    requires labels != [] && LeadersOf(labels[..|labels| - 1], r)
    ensures var n := |labels| - 1;
      LeadersOf(labels, if labels[n] in labels[..n] then r else r + [n])
  {
    var n := |labels| - 1;
    var init := labels[..n];
    assert labels == init + [labels[n]];
    assert forall u :: 0 <= u < |r| ==> labels[r[u]] == init[r[u]];
    if labels[n] !in init {
      NewLabel(labels, n);
    }
  }

  /** A label absent from the first n labels differs from each of them. */
  lemma NewLabel(labels: seq<nat>, n: nat)
    requires n < |labels| && labels[n] !in labels[..n]
    ensures forall a :: 0 <= a < n ==> labels[a] != labels[n]
  {
    forall a | 0 <= a < n ensures labels[a] != labels[n] {
      assert labels[..n][a] in labels[..n];
    }
  }

  /** The first element of each group is the first index with its label. */
  lemma ClassFirst(labels: seq<nat>, u: nat)
    requires u < |Classes(labels)|
    ensures Classes(labels)[u] != [] && Classes(labels)[u][0] == Leaders(labels)[u]
  {
    var g, l, d := Classes(labels), Leaders(labels), Distinct(labels);
    SelectIndices(labels, d[u]);
    assert l[u] in g[u];
    var k := g[u][0];
    assert k in g[u];
    var t :| 0 <= t < |g[u]| && g[u][t] == l[u];
    assert t == 0;
  }

  /** So the groups are ordered by their first element. */
  lemma ClassesOrdered(labels: seq<nat>)
    ensures var g := Classes(labels);
      forall u, w :: 0 <= u < w < |g| ==> g[u] != [] && g[w] != [] && g[u][0] < g[w][0]
  {
    forall u | 0 <= u < |Classes(labels)| {
      ClassFirst(labels, u);
    }
  }

  /** Two labellings that agree on which indices share a label. */
  ghost predicate SameClasses(labels: seq<nat>, labels': seq<nat>) {
    && |labels| == |labels'|
    && forall a, b :: 0 <= a < |labels| && 0 <= b < |labels| ==>
         (labels[a] == labels[b] <==> labels'[a] == labels'[b])
  }

  lemma {:induction false} LeadersOfSameClasses(labels: seq<nat>, labels': seq<nat>)
    requires SameClasses(labels, labels')
    ensures Leaders(labels) == Leaders(labels')
  {
    if labels != [] {
      var n := |labels| - 1;
      assert SameClasses(labels[..n], labels'[..n]);
      LeadersOfSameClasses(labels[..n], labels'[..n]);
      assert labels[n] in labels[..n] <==> labels'[n] in labels'[..n] by {
        if labels[n] in labels[..n] {
          var a :| 0 <= a < n && labels[..n][a] == labels[n];
          assert labels'[..n][a] == labels'[n];
        }
        if labels'[n] in labels'[..n] {
          var a :| 0 <= a < n && labels'[..n][a] == labels'[n];
          assert labels[..n][a] == labels[n];
        }
      }
    }
  }

  lemma {:induction false} SelectOfSameClasses(labels: seq<nat>, labels': seq<nat>, l: nat)
    requires SameClasses(labels, labels') && l < |labels|
    ensures Select(Range(|labels|), labels, labels[l]) == Select(Range(|labels'|), labels', labels'[l])
  {
    var n := |labels| - 1;
    var init, init' := labels[..n], labels'[..n];
    assert SameClasses(init, init');
    SelectSnoc(labels, labels[l]);
    SelectSnoc(labels', labels'[l]);
    if l < n {
      SelectOfSameClasses(init, init', l);
    } else if labels[n] in init {
      var l0 :| 0 <= l0 < n && init[l0] == labels[n];
      assert init'[l0] == labels'[n];
      SelectOfSameClasses(init, init', l0);
    } else {
      SelectAbsent(Range(n), init, labels[n]);
      forall a | 0 <= a < n ensures init'[a] != labels'[n] {
        assert init[a] in init;
      }
      SelectAbsent(Range(n), init', labels'[n]);
    }
  }

  /** The grouping depends only on which indices share a label, not on the
      label values themselves. */
  lemma ClassesOfSameClasses(labels: seq<nat>, labels': seq<nat>)
    requires SameClasses(labels, labels')
    ensures Classes(labels) == Classes(labels')
  {
    LeadersOfSameClasses(labels, labels');
    var l := Leaders(labels);
    forall u | 0 <= u < |l| ensures Classes(labels)[u] == Classes(labels')[u] {
      SelectOfSameClasses(labels, labels', l[u]);
    }
  }

  lemma SelectSnoc(labels: seq<nat>, y: nat)
    requires labels != []
    ensures var n: nat := |labels| - 1;
      Select(Range(n + 1), labels, y) == Select(Range(n), labels[..n], y) + (if labels[n] == y then [n] else [])
  {
    assert Range(|labels|)[..|labels| - 1] == Range(|labels| - 1);
  }

  lemma ClassesAt(labels: seq<nat>, u: nat)
    requires u < |Distinct(labels)|
    ensures |Classes(labels)| == |Distinct(labels)|
    ensures Classes(labels)[u] == Select(Range(|labels|), labels, Distinct(labels)[u])
  {
  }

  /** A value that gs never takes selects nothing. */
  lemma {:induction false} SelectAbsent(ks: seq<nat>, gs: seq<nat>, g: nat)
    requires |ks| == |gs| && g !in gs
    ensures Select(ks, gs, g) == []
  {
    if gs != [] {
      assert gs == gs[..|gs| - 1] + [gs[|gs| - 1]];
      SelectAbsent(ks[..|ks| - 1], gs[..|gs| - 1], g);
    }
  }

  lemma DistinctSnoc(labels: seq<nat>)
    requires labels != []
    ensures var n := |labels| - 1; var d := Distinct(labels[..n]);
      Distinct(labels) == if labels[n] in d then d else d + [labels[n]]
  {
  }

  /** An index whose label occurs earlier joins that label's group. */
  lemma ClassesSnocPresent(labels: seq<nat>, u: nat)
    requires labels != []
    requires var d := Distinct(labels[..|labels| - 1]); u < |d| && d[u] == labels[|labels| - 1]
    ensures multiset(Flatten(Classes(labels)))
         == multiset(Flatten(Classes(labels[..|labels| - 1]))) + multiset{(|labels| - 1) as nat}
  {
    var n: nat := |labels| - 1;
    var init := labels[..n];
    var g, g' := Classes(init), Classes(labels);
    var d := Distinct(init);
    DistinctSnoc(labels);
    forall w | 0 <= w < |d| ensures g'[w] == g[w] + (if w == u then [n] else []) {
      ClassesAt(labels, w);
      ClassesAt(init, w);
      SelectSnoc(labels, d[w]);
    }
    FlattenAppendAt(g, g', u, n);
  }

  /** An index with a new label opens a group of its own at the end. */
  lemma ClassesSnocAbsentShape(labels: seq<nat>)
    requires labels != []
    requires labels[|labels| - 1] !in Distinct(labels[..|labels| - 1])
    ensures Classes(labels) == Classes(labels[..|labels| - 1]) + [[(|labels| - 1) as nat]]
  {
    var n: nat := |labels| - 1;
    var x, init := labels[n], labels[..n];
    var g, g' := Classes(init), Classes(labels);
    var d := Distinct(init);
    DistinctSnoc(labels);
    forall w | 0 <= w < |d| ensures g'[w] == g[w] {
      ClassesAt(labels, w);
      ClassesAt(init, w);
      SelectSnoc(labels, d[w]);
    }
    ClassesAt(labels, |d|);
    assert |g| == |d|;
    assert Distinct(labels)[|d|] == x;
    SelectSnoc(labels, x);
    SelectAbsent(Range(n), init, x);
    assert g'[|d|] == [n];
    SnocOf(g', g, [n]);
  }

  lemma ClassesSnocAbsent(labels: seq<nat>)
    requires labels != []
    requires labels[|labels| - 1] !in Distinct(labels[..|labels| - 1])
    ensures multiset(Flatten(Classes(labels)))
         == multiset(Flatten(Classes(labels[..|labels| - 1]))) + multiset{(|labels| - 1) as nat}
  {
    ClassesSnocAbsentShape(labels);
    FlattenSnoc(Classes(labels[..|labels| - 1]), [(|labels| - 1) as nat]);
  }

  lemma SnocOf<T>(s': seq<T>, s: seq<T>, x: T)
    requires |s'| == |s| + 1 && s'[|s|] == x
    requires forall w :: 0 <= w < |s| ==> s'[w] == s[w]
    ensures s' == s + [x]
  {
  }

  /** The last index joins the group of its label, or opens a new group. */
  lemma ClassesSnoc(labels: seq<nat>)
    requires labels != []
    ensures multiset(Flatten(Classes(labels)))
         == multiset(Flatten(Classes(labels[..|labels| - 1]))) + multiset{(|labels| - 1) as nat}
  {
    var d := Distinct(labels[..|labels| - 1]);
    if labels[|labels| - 1] in d {
      var u :| 0 <= u < |d| && d[u] == labels[|labels| - 1];
      ClassesSnocPresent(labels, u);
    } else {
      ClassesSnocAbsent(labels);
    }
  }

  lemma RangeSnoc(n: nat)
    ensures Range(n + 1) == Range(n) + [n]
  {
  }

  /** Together the groups hold every index once. */
  lemma {:induction false} ClassesCoverRange(labels: seq<nat>)
    ensures multiset(Flatten(Classes(labels))) == multiset(Range(|labels|))
  {
    if labels != [] {
      var n: nat := |labels| - 1;
      ClassesCoverRange(labels[..n]);
      ClassesSnoc(labels);
      RangeSnoc(n);
    }
  }

  /** Every index in idx is below n. */
  ghost predicate Below(idx: seq<nat>, n: nat) {
    forall t :: 0 <= t < |idx| ==> idx[t] < n
  }

  /** [s[i] for i in idx] */
  function Pick<T>(s: seq<T>, idx: seq<nat>): (r: seq<T>)
    requires Below(idx, |s|)
    ensures |r| == |idx| && forall t :: 0 <= t < |idx| ==> r[t] == s[idx[t]]
  {
    seq(|idx|, t requires 0 <= t < |idx| => s[idx[t]])
  }

  /** [[s[i] for i in group] for group in groups] */
  function Project<T>(s: seq<T>, groups: seq<seq<nat>>): (r: seq<seq<T>>)
    requires forall u, t :: 0 <= u < |groups| && 0 <= t < |groups[u]| ==> groups[u][t] < |s|
    ensures |r| == |groups| && forall u :: 0 <= u < |groups| ==> r[u] == Pick(s, groups[u])
  {
    seq(|groups|, u requires 0 <= u < |groups| => Pick(s, groups[u]))
  }

  lemma {:induction false} FlattenProject<T>(s: seq<T>, groups: seq<seq<nat>>)
    requires forall u, t :: 0 <= u < |groups| && 0 <= t < |groups[u]| ==> groups[u][t] < |s|
    ensures Below(Flatten(groups), |s|)
    ensures Flatten(Project(s, groups)) == Pick(s, Flatten(groups))
  {
    if groups != [] {
      FlattenProject(s, groups[1..]);
      var f, f' := Flatten(groups), Flatten(groups[1..]);
      assert f == groups[0] + f';
      forall t | 0 <= t < |f| ensures f[t] < |s| {
        if t < |groups[0]| {
          assert f[t] == groups[0][t];
        } else {
          assert f[t] == f'[t - |groups[0]|];
        }
      }
      assert Project(s, groups)[1..] == Project(s, groups[1..]);
      assert Pick(s, f) == Pick(s, groups[0]) + Pick(s, f');
    }
  }

  lemma MultisetCancel<T>(a: multiset<T>, b: multiset<T>, x: T)
    requires a + multiset{x} == b + multiset{x}
    ensures a == b
  {
    assert forall o :: a[o] == (a + multiset{x})[o] - multiset{x}[o];
  }

  /** s without its element at p. */
  function RemoveAt<T>(s: seq<T>, p: nat): (r: seq<T>)
    requires p < |s|
    ensures |r| == |s| - 1
    ensures forall t :: 0 <= t < |r| ==> r[t] == if t < p then s[t] else s[t + 1]
  {
    s[..p] + s[p + 1..]
  }

  lemma MultisetRemoveAt<T>(s: seq<T>, p: nat)
    requires p < |s|
    ensures multiset(s) == multiset(RemoveAt(s, p)) + multiset{s[p]}
  {
    assert s == s[..p] + [s[p]] + s[p + 1..];
  }

  lemma PickRemoveAt<T>(s: seq<T>, idx: seq<nat>, p: nat)
    requires Below(idx, |s|) && p < |idx|
    ensures Below(RemoveAt(idx, p), |s|)
    ensures Pick(s, RemoveAt(idx, p)) == RemoveAt(Pick(s, idx), p)
  {
  }

  /** Picking by two permutations of the same indices picks the same elements. */
  lemma {:induction false} PickPermutation<T>(s: seq<T>, idx: seq<nat>, idx': seq<nat>)
    requires Below(idx, |s|) && Below(idx', |s|)
    requires multiset(idx) == multiset(idx')
    ensures multiset(Pick(s, idx)) == multiset(Pick(s, idx'))
  {
    if idx == [] {
      assert |multiset(idx')| == 0;
    } else {
      var x := idx[0];
      assert x in multiset(idx');
      var p :| 0 <= p < |idx'| && idx'[p] == x;
      MultisetRemoveAt(idx, 0);
      MultisetRemoveAt(idx', p);
      MultisetCancel(multiset(RemoveAt(idx, 0)), multiset(RemoveAt(idx', p)), x);
      PickRemoveAt(s, idx, 0);
      PickRemoveAt(s, idx', p);
      PickPermutation(s, RemoveAt(idx, 0), RemoveAt(idx', p));
      MultisetRemoveAt(Pick(s, idx), 0);
      MultisetRemoveAt(Pick(s, idx'), p);
    }
  }

  /** Projecting the index groups onto s keeps every element of s exactly once. */
  lemma ProjectClassesPermutes<T>(s: seq<T>, labels: seq<nat>)
    requires |labels| == |s|
    ensures multiset(Flatten(Project(s, Classes(labels)))) == multiset(s)
  {
    var g := Classes(labels);
    FlattenProject(s, g);
    ClassesCoverRange(labels);
    PickPermutation(s, Flatten(g), Range(|s|));
    assert Pick(s, Range(|s|)) == s;
  }

  /** Mapping two permutations of the same list gives two permutations of
      the same list. */
  lemma {:induction false} MapPermutation<A, B>(f: A -> B, s: seq<A>, s': seq<A>)
    requires multiset(s) == multiset(s')
    ensures multiset(Map(f, s)) == multiset(Map(f, s'))
  {
    if s == [] {
      assert |multiset(s')| == 0;
    } else {
      var x := s[0];
      assert x in multiset(s');
      var p :| 0 <= p < |s'| && s'[p] == x;
      MultisetRemoveAt(s, 0);
      MultisetRemoveAt(s', p);
      MultisetCancel(multiset(RemoveAt(s, 0)), multiset(RemoveAt(s', p)), x);
      MapPermutation(f, RemoveAt(s, 0), RemoveAt(s', p));
      MapRemoveAt(f, s, 0);
      MapRemoveAt(f, s', p);
      MultisetRemoveAt(Map(f, s), 0);
      MultisetRemoveAt(Map(f, s'), p);
    }
  }

  lemma MapRemoveAt<A, B>(f: A -> B, s: seq<A>, p: nat)
    requires p < |s|
    ensures Map(f, RemoveAt(s, p)) == RemoveAt(Map(f, s), p)
  {
  }
}
