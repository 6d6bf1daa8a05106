/**
 * Python's `dict`, which remembers the order in which keys were first
 * inserted: iterating over `d.items()` visits the keys in that order, and
 * assigning to an existing key changes its value but not its place.
 */
module OrderedDicts {

  datatype Dict<K(==), V> = Dict(keys: seq<K>, entries: map<K, V>)
  {
    /** The keys are listed once each, and the listed keys are exactly the mapped ones. */
    ghost predicate Valid()
    {
      && (forall i, j :: 0 <= i < j < |keys| ==> keys[i] != keys[j])
      && entries.Keys == (set k | k in keys)
    }

    /** `d[k] = v`. */
    function Put(k: K, v: V): (d: Dict<K, V>)
      ensures Valid() ==> d.Valid()
    {
      Dict(if k in entries then keys else keys + [k], entries[k := v])
    }
  }

  /** Every listed key is mapped. */
  lemma KeysMapped<K, V>(d: Dict<K, V>)
    requires d.Valid()
    ensures forall i :: 0 <= i < |d.keys| ==> d.keys[i] in d.entries
  {
    forall i | 0 <= i < |d.keys| ensures d.keys[i] in d.entries {
      assert d.keys[i] in (set k | k in d.keys);
    }
  }

  function Empty<K(==), V>(): (d: Dict<K, V>)
    ensures d.Valid()
  {
    Dict([], map[])
  }
}
