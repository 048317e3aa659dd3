/** Python dictionaries whose iteration order matters: a key order (insertion order) plus a map. */
module Dicts {

  datatype Dict<V> = Dict(keys: seq<string>, entries: map<string, V>) {

    /** Every key is listed exactly once, in insertion order. */
    ghost predicate Valid() {
      && (forall k :: k in entries <==> k in keys)
      && (forall i, j :: 0 <= i < j < |keys| ==> keys[i] != keys[j])
    }

    /** `d[k] = v`: a new key goes to the end of the order, an existing key keeps its place. */
    function Set(k: string, v: V): (d: Dict<V>)
      requires Valid()
      ensures d.Valid()
      ensures d.entries == entries[k := v]
      ensures k in entries ==> d.keys == keys
      ensures k !in entries ==> d.keys == keys + [k]
    {
      if k in entries then Dict(keys, entries[k := v]) else Dict(keys + [k], entries[k := v])
    }
  }

  function Empty<V>(): (d: Dict<V>)
    ensures d.Valid() && d.entries == map[]
  {
    Dict([], map[])
  }
}
