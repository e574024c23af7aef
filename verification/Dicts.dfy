/** Python's insertion-ordered dictionary: a value map plus the order in which its keys first arrived. */
module Dicts {

  import opened Common

  datatype Dict<K(==,!new), +V> = Dict(keys: seq<K>, vals: map<K, V>) {

    ghost predicate Valid() {
      && NoDup(keys)
      && (forall k :: k in keys ==> k in vals)
      && (forall k :: k in vals ==> k in keys)
    }

    predicate Has(k: K) {
      k in vals
    }

    function Get(k: K): Option<V> {
      if k in vals then Some(vals[k]) else None
    }

    /** An existing key keeps its position, a new one goes last. */
    function Put(k: K, v: V): (d: Dict<K, V>)
      ensures Valid() ==> d.Valid()
    {
      Dict(if k in vals then keys else keys + [k], vals[k := v])
    }

    function Pop(k: K): Dict<K, V> {
      Dict(Remove(keys, k), vals - {k})
    }
  }

  function Empty<K(==,!new), V>(): (d: Dict<K, V>)
    ensures d.Valid()
  {
    Dict([], map[])
  }

  lemma PopValid<K(!new), V>(d: Dict<K, V>, k: K)
    requires d.Valid()
    ensures d.Pop(k).Valid()
  {
    RemoveNoDup(d.keys, k);
    var p := d.Pop(k);
    forall x | x in p.keys ensures x in p.vals {
      assert x in Remove(d.keys, k);
      assert x in d.keys && x != k;
    }
    forall x | x in p.vals ensures x in p.keys {
      assert x in d.vals && x != k;
    }
  }

  /** Taking out an entry just made leaves no trace of it. */
  lemma PutPop<K(!new), V>(d: Dict<K, V>, k: K, v: V)
    requires d.Valid() && k !in d.vals
    ensures d.Put(k, v).Pop(k) == d
  {
    RemoveLast(d.keys, k);
    assert d.vals[k := v] - {k} == d.vals;
  }

  lemma {:induction false} RemoveLast<K(!new)>(s: seq<K>, x: K)
    requires x !in s
    ensures Remove(s + [x], x) == s
  {
    if s != [] {
      assert (s + [x])[1..] == s[1..] + [x];
      RemoveLast(s[1..], x);
    }
  }

  /** The last of the first `n` keys is none of those before it. */
  lemma LatestKey<K(!new), V>(d: Dict<K, V>, n: nat)
    requires d.Valid() && 0 < n <= |d.keys|
    ensures d.keys[n - 1] !in d.keys[..n - 1] && d.keys[n - 1] in d.keys && d.keys[n - 1] in d.vals
  {
    assert d.keys[n - 1] in d.keys;
  }

  /** An entry keeps the place where its key first arrived. */
  lemma PutExact<K(!new), V>(d: Dict<K, V>, k: K, v: V)
    requires d.Valid()
    ensures d.Put(k, v).vals == d.vals[k := v]
    ensures d.Put(k, v).keys == if k in d.keys then d.keys else d.keys + [k]
  {
  }
}
