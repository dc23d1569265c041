/** A map that remembers the order its keys were first set in, as the language's own `Map` does. */
module InsertionMaps {

  datatype InsertionMap<K(==), V> = InsertionMap(keys: seq<K>, at: map<K, V>) {

    ghost predicate Valid() {
      && (forall i, j :: 0 <= i < j < |keys| ==> keys[i] != keys[j])
      && at.Keys == (set k | k in keys)
    }

    /** A new key goes last; setting a key again keeps its place. */
    function Set(k: K, v: V): (r: InsertionMap<K, V>)
      requires Valid()
      ensures r.Valid()
      ensures r.at == at[k := v]
      ensures keys <= r.keys
    {
      if k in at then InsertionMap(keys, at[k := v]) else InsertionMap(keys + [k], at[k := v])
    }

    function Values(): (r: seq<V>)
      requires Valid()
      ensures |r| == |keys|
      ensures forall i :: 0 <= i < |r| ==> keys[i] in at && r[i] == at[keys[i]]
    {
      seq(|keys|, i requires 0 <= i < |keys| => at[keys[i]])
    }
  }

  function Empty<K(==), V>(): (r: InsertionMap<K, V>)
    ensures r.Valid()
  {
    InsertionMap([], map[])
  }
}
