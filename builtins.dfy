/** The Python built-ins the core relies on: abs, sum, min, max, sorted with a
    key (a stable sort), and the flattening of a list of lists. */
module Builtins {
  import opened Outcome

  function Abs(x: int): nat {
    if x < 0 then -x else x
  }

  /** The list [0, 1, ..., n - 1]. */
  function Range(n: nat): (r: seq<nat>)
    ensures |r| == n && forall k :: 0 <= k < n ==> r[k] == k
  {
    if n == 0 then [] else Range(n - 1) + [n - 1]
  }

  /** sum(s) */
  function Sum(s: seq<int>): int {
    if s == [] then 0 else Sum(s[..|s| - 1]) + s[|s| - 1]
  }

  /** min(s): the least element; an empty list is an error. */
  function Min(s: seq<int>): (r: Result<int>)
    ensures r.Ok? <==> s != []
    ensures r.Ok? ==> r.value in s && forall x :: x in s ==> r.value <= x
  {
    if s == [] then Err(EmptySequence)
    else if |s| == 1 then Ok(s[0])
    else
      var rest := Min(s[1..]).value;
      assert s == [s[0]] + s[1..];
      Ok(if s[0] <= rest then s[0] else rest)
  }

  /** max(s): the greatest element; an empty list is an error. */
  function Max(s: seq<int>): (r: Result<int>)
    ensures r.Ok? <==> s != []
    ensures r.Ok? ==> r.value in s && forall x :: x in s ==> x <= r.value
  {
    if s == [] then Err(EmptySequence)
    else if |s| == 1 then Ok(s[0])
    else
      var rest := Max(s[1..]).value;
      assert s == [s[0]] + s[1..];
      Ok(if rest <= s[0] then s[0] else rest)
  }

  /** The concatenation of a list of lists, in order. */
  function Flatten<T>(ss: seq<seq<T>>): seq<T> {
    if ss == [] then [] else ss[0] + Flatten(ss[1..])
  }

  lemma {:induction false} FlattenSnoc<T>(ss: seq<seq<T>>, t: seq<T>)
    ensures Flatten(ss + [t]) == Flatten(ss) + t
  {
    if ss != [] {
      assert (ss + [t])[1..] == ss[1..] + [t];
      FlattenSnoc(ss[1..], t);
    }
  }

  /** Appending x to one of the lists adds exactly x to the flattened contents. */
  lemma {:induction false} FlattenAppendAt<T>(ss: seq<seq<T>>, ts: seq<seq<T>>, u: nat, x: T)
    requires |ss| == |ts| && u < |ss|
    requires ts[u] == ss[u] + [x]
    requires forall w :: 0 <= w < |ss| && w != u ==> ts[w] == ss[w]
    ensures multiset(Flatten(ts)) == multiset(Flatten(ss)) + multiset{x}
  {
    if u == 0 {
      assert ts[1..] == ss[1..];
    } else {
      FlattenAppendAt(ss[1..], ts[1..], u - 1, x);
    }
  }

  /** Every key of s is at most every key of a later element. */
  ghost predicate Ascending<T>(s: seq<T>, key: T -> int) {
    forall a, b :: 0 <= a < b < |s| ==> key(s[a]) <= key(s[b])
  }

  /** The elements of s whose key is k, in their order in s. */
  ghost function KeyFilter<T>(s: seq<T>, key: T -> int, k: int): seq<T> {
    if s == [] then [] else KeyFilter(s[..|s| - 1], key, k) + (if key(s[|s| - 1]) == k then [s[|s| - 1]] else [])
  }

  lemma KeyFilterSnoc<T>(s: seq<T>, y: T, key: T -> int)
    ensures forall k :: KeyFilter(s + [y], key, k) == KeyFilter(s, key, k) + (if key(y) == k then [y] else [])
  {
    assert (s + [y])[..|s|] == s;
  }

  lemma AscendingSnoc<T>(s: seq<T>, y: T, key: T -> int)
    requires Ascending(s, key)
    requires forall a :: 0 <= a < |s| ==> key(s[a]) <= key(y)
    ensures Ascending(s + [y], key)
  {
  }

  /** Every element of a permutation of init + [x] has a key at most key(last),
      when init + [last] is ascending and x's key is below last's. */
  lemma KeysBelowLast<T>(init: seq<T>, last: T, x: T, r: seq<T>, key: T -> int)
    requires Ascending(init + [last], key) && key(x) < key(last)
    requires multiset(r) == multiset(init) + multiset{x}
    ensures forall a :: 0 <= a < |r| ==> key(r[a]) <= key(last)
  {
    forall a | 0 <= a < |r| ensures key(r[a]) <= key(last) {
      assert r[a] in multiset(r);
      if r[a] != x {
        assert r[a] in multiset(init);
        var b :| 0 <= b < |init| && init[b] == r[a];
        assert (init + [last])[b] == r[a] && (init + [last])[|init|] == last;
      }
    }
  }

  /** Inserts x into an ascending list after every element whose key is not above x's. */
  function InsertBy<T>(s: seq<T>, x: T, key: T -> int): seq<T>
    decreases |s|
  {
    if s == [] || key(s[|s| - 1]) <= key(x) then s + [x]
    else InsertBy(s[..|s| - 1], x, key) + [s[|s| - 1]]
  }

  lemma {:induction false} InsertByPermutes<T>(s: seq<T>, x: T, key: T -> int)
    ensures multiset(InsertBy(s, x, key)) == multiset(s) + multiset{x}
    decreases |s|
  {
    if s != [] && key(s[|s| - 1]) > key(x) {
      var init, last := s[..|s| - 1], s[|s| - 1];
      assert s == init + [last];
      InsertByPermutes(init, x, key);
    }
  }

  lemma {:induction false} InsertByAscending<T>(s: seq<T>, x: T, key: T -> int)
    requires Ascending(s, key)
    ensures Ascending(InsertBy(s, x, key), key)
    decreases |s|
  {
    if s == [] || key(s[|s| - 1]) <= key(x) {
      AscendingSnoc(s, x, key);
    } else {
      var init, last := s[..|s| - 1], s[|s| - 1];
      assert s == init + [last];
      var r' := InsertBy(init, x, key);
      InsertByAscending(init, x, key);
      InsertByPermutes(init, x, key);
      KeysBelowLast(init, last, x, r', key);
      AscendingSnoc(r', last, key);
    }
  }

  lemma {:induction false} InsertByKeyFilter<T>(s: seq<T>, x: T, key: T -> int, k: int)
    requires Ascending(s, key)
    ensures KeyFilter(InsertBy(s, x, key), key, k) == KeyFilter(s, key, k) + (if key(x) == k then [x] else [])
    decreases |s|
  {
    if s == [] || key(s[|s| - 1]) <= key(x) {
      KeyFilterSnoc(s, x, key);
    } else {
      var init, last := s[..|s| - 1], s[|s| - 1];
      assert s == init + [last];
      var r' := InsertBy(init, x, key);
      InsertByKeyFilter(init, x, key, k);
      KeyFilterSnoc(r', last, key);
      KeyFilterSnoc(init, last, key);
    }
  }

  /** sorted(s, key=key): a stable sort by insertion. */
  function SortBy<T>(s: seq<T>, key: T -> int): seq<T> {
    if s == [] then [] else InsertBy(SortBy(s[..|s| - 1], key), s[|s| - 1], key)
  }

  /** The result is ascending, a permutation of s, and keeps the order of the
      elements of each key: the list Python's stable sort produces. */
  lemma {:induction false} SortByCorrect<T>(s: seq<T>, key: T -> int)
    ensures Ascending(SortBy(s, key), key)
    ensures multiset(SortBy(s, key)) == multiset(s)
    ensures forall k :: KeyFilter(SortBy(s, key), key, k) == KeyFilter(s, key, k)
  {
    if s != [] {
      var init, last := s[..|s| - 1], s[|s| - 1];
      assert s == init + [last];
      SortByCorrect(init, key);
      InsertByAscending(SortBy(init, key), last, key);
      InsertByPermutes(SortBy(init, key), last, key);
      forall k ensures KeyFilter(SortBy(s, key), key, k) == KeyFilter(s, key, k) {
        InsertByKeyFilter(SortBy(init, key), last, key, k);
      }
      KeyFilterSnoc(init, last, key);
    }
  }

  function Identity(x: int): int {
    x
  }

  /** map(f, s), as a list */
  function Map<A, B>(f: A -> B, s: seq<A>): (r: seq<B>)
    ensures |r| == |s| && forall i :: 0 <= i < |s| ==> r[i] == f(s[i])
  {
    seq(|s|, i requires 0 <= i < |s| => f(s[i]))
  }

  /** [f(x) for x in items] where f may raise: the first failure, from the
      left, is the failure of the whole list. */
  function MapAll<A, B>(f: A -> Result<B>, items: seq<A>): (r: Result<seq<B>>)
    ensures r.Ok? ==> |r.value| == |items| && forall i :: 0 <= i < |items| ==> f(items[i]) == Ok(r.value[i])
    ensures r.Err? ==> exists i :: 0 <= i < |items| && f(items[i]) == Err(r.error) &&
                         forall j :: 0 <= j < i ==> f(items[j]).Ok?
  {
    if items == [] then Ok([])
    else
      var first :- f(items[0]);
      var rest :- MapAll(f, items[1..]);
      Ok([first] + rest)
  }

  /** Converting back what g produced gives the original list, when f undoes g
      on each element. */
  lemma {:induction false} MapAllInverse<A, B>(f: A -> Result<B>, g: B -> A, xs: seq<B>)
    requires forall x :: x in xs ==> f(g(x)) == Ok(x)
    ensures MapAll(f, Map(g, xs)) == Ok(xs)
  {
    if xs != [] {
      assert Map(g, xs)[1..] == Map(g, xs[1..]);
      assert xs[0] in xs && forall x :: x in xs[1..] ==> x in xs;
      MapAllInverse(f, g, xs[1..]);
      assert xs == [xs[0]] + xs[1..];
    }
  }

  /** The list comprehension run one element further: the result so far,
      extended by the next element's value unless one of them failed. */
  lemma {:induction false} MapAllSnoc<A, B>(f: A -> Result<B>, xs: seq<A>, x: A)
    ensures MapAll(f, xs + [x]) == (var init :- MapAll(f, xs); var last :- f(x); Ok(init + [last]))
  {
    if xs != [] {
      assert (xs + [x])[0] == xs[0] && (xs + [x])[1..] == xs[1..] + [x];
      MapAllSnoc(f, xs[1..], x);
      if f(xs[0]).Ok? && MapAll(f, xs[1..]).Ok? && f(x).Ok? {
        var first, rest, last := f(xs[0]).value, MapAll(f, xs[1..]).value, f(x).value;
        assert [first] + (rest + [last]) == ([first] + rest) + [last];
      }
    } else {
      assert xs + [x] == [x] && MapAll(f, [x][1..]) == Ok([]);
      if f(x).Ok? {
        assert [f(x).value] + [] == [] + [f(x).value];
      }
    }
  }

  /** A failing list keeps its error when extended. */
  lemma MapAllSnocErr<A, B>(f: A -> Result<B>, xs: seq<A>, x: A)
    requires MapAll(f, xs).Err?
    ensures MapAll(f, xs + [x]) == MapAll(f, xs)
  {
    MapAllSnoc(f, xs, x);
  }

  /** Once a prefix fails, the whole list fails with the same error. */
  lemma {:induction false} MapAllPrefixError<A, B>(f: A -> Result<B>, xs: seq<A>, t: nat)
    requires t <= |xs| && MapAll(f, xs[..t]).Err?
    ensures MapAll(f, xs) == MapAll(f, xs[..t])
  {
    assert xs == xs[..t] + xs[t..];
    MapAllAppendErr(f, xs[..t], xs[t..]);
  }

  lemma {:induction false} MapAllAppendErr<A, B>(f: A -> Result<B>, xs: seq<A>, ys: seq<A>)
    requires MapAll(f, xs).Err?
    ensures MapAll(f, xs + ys) == MapAll(f, xs)
  {
    if ys == [] {
      assert xs + ys == xs;
    } else {
      var init, last := ys[..|ys| - 1], ys[|ys| - 1];
      assert xs + ys == (xs + init) + [last];
      MapAllAppendErr(f, xs, init);
      MapAllSnocErr(f, xs + init, last);
    }
  }

  /** One more successful element extends the converted prefix by its value. */
  lemma MapAllStepOk<A, B>(f: A -> Result<B>, xs: seq<A>, t: nat, ys: seq<B>, y: B)
    requires t < |xs| && MapAll(f, xs[..t]) == Ok(ys) && f(xs[t]) == Ok(y)
    ensures MapAll(f, xs[..t + 1]) == Ok(ys + [y])
  {
    assert xs[..t + 1] == xs[..t] + [xs[t]];
    MapAllSnoc(f, xs[..t], xs[t]);
  }

  /** The first failing element after a converted prefix gives the error of
      the whole list. */
  lemma MapAllStepErr<A, B>(f: A -> Result<B>, xs: seq<A>, t: nat, ys: seq<B>)
    requires t < |xs| && MapAll(f, xs[..t]) == Ok(ys) && f(xs[t]).Err?
    ensures MapAll(f, xs) == Err(f(xs[t]).error)
  {
    var e := f(xs[t]).error;
    assert xs[..t + 1] == xs[..t] + [xs[t]];
    MapAllSnoc(f, xs[..t], xs[t]);
    assert MapAll(f, xs[..t + 1]) == Err(e);
    MapAllPrefixError(f, xs, t + 1);
  }

  /** When every element maps to its value, the whole list maps to the list
      of values. */
  lemma {:induction false} MapAllAllOk<A, B>(f: A -> Result<B>, xs: seq<A>, ys: seq<B>)
    requires |xs| == |ys| && forall i :: 0 <= i < |xs| ==> f(xs[i]) == Ok(ys[i])
    ensures MapAll(f, xs) == Ok(ys)
  {
    if xs != [] {
      MapAllAllOk(f, xs[1..], ys[1..]);
      assert ys == [ys[0]] + ys[1..];
    }
  }
}
