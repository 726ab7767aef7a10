/** Python's dict remembers the order in which its keys were first inserted:
    assigning to a key that is present changes its value in place, a new key
    goes to the end.  The grouping code returns its groups in that order. */
module PyDict {

  datatype Dict<K(==, !new), V> = Dict(keys: seq<K>, entries: map<K, V>) {

    /** The keys are listed once each, and exactly the mapped keys are listed. */
    ghost predicate Valid() {
      && (forall a, b :: 0 <= a < b < |keys| ==> Apart(a, b))
      && forall k :: k in entries <==> k in keys
    }

    /** The keys at positions a and b differ. */
    ghost predicate Apart(a: nat, b: nat)
      requires a < |keys| && b < |keys|
    {
      keys[a] != keys[b]
    }

    /** d[k] = v */
    function Put(k: K, v: V): (d: Dict<K, V>)
      requires Valid()
      ensures d.Valid()
    {
      var d := Dict(if k in entries then keys else keys + [k], entries[k := v]);
      assert forall a, b :: 0 <= a < b < |d.keys| ==> d.Apart(a, b) by {
        forall a, b | 0 <= a < b < |d.keys| ensures d.Apart(a, b) {
          if b < |keys| {
            assert Apart(a, b);
          }
        }
      }
      d
    }

    /** A key does not occur before its own position. */
    lemma NotEarlier(t: nat)
      requires Valid() && t < |keys|
      ensures keys[t] in entries && keys[t] !in keys[..t]
    {
      forall u | 0 <= u < t ensures keys[u] != keys[t] {
        assert Apart(u, t);
      }
    }

    /** list(d.values()) */
    function Values(): seq<V>
      requires Valid()
    {
      seq(|keys|, i requires 0 <= i < |keys| => entries[keys[i]])
    }
  }

  /** {} */
  function EmptyDict<K(==, !new), V>(): Dict<K, V> {
    Dict([], map[])
  }
}
