/**
 * Python's dict with string keys: a map plus the order in which keys were
 * first inserted (keys(), values() and items() iterate in that order).
 */
module Dicts {
  import opened Seqs

  datatype Dict<V> = Dict(keys: seq<string>, vals: map<string, V>) {

    /** Every key is listed once, in insertion order, and only the listed keys have values. */
    ghost predicate Valid()
    {
      Distinct(keys) && (forall k :: k in vals <==> k in keys)
    }

    /** `d[k] = v`: an existing key keeps its position, a new key goes last. */
    function Put(k: string, v: V): (d: Dict<V>)
      requires Valid()
      ensures d.Valid()
      ensures d.vals == vals[k := v]
      ensures k in vals ==> d.keys == keys
      ensures k !in vals ==> d.keys == keys + [k]
    {
      if k in vals then Dict(keys, vals[k := v]) else Dict(keys + [k], vals[k := v])
    }

    /** `d.get(k, default)`. */
    function Get(k: string, default: V): V
    {
      if k in vals then vals[k] else default
    }

    /** `len(d)`. */
    function Size(): (n: nat)
      requires Valid()
      ensures n == |vals|
    {
      KeysCount(keys, vals);
      |keys|
    }
  }

  function Empty<V>(): (d: Dict<V>)
    ensures d.Valid() && d.keys == [] && d.vals == map[]
  {
    Dict([], map[])
  }

  lemma {:induction false} KeysCount<V>(keys: seq<string>, vals: map<string, V>)
    requires Distinct(keys) && (forall k :: k in vals <==> k in keys)
    ensures |keys| == |vals|
  {
    if keys != [] {
      var last := keys[|keys| - 1];
      var front := keys[..|keys| - 1];
      assert forall k :: k in vals - {last} <==> k in front by {
        forall k ensures k in vals - {last} <==> k in front {
          if k in keys && k != last {
            var i :| 0 <= i < |keys| && keys[i] == k;
            assert i < |keys| - 1;
            assert front[i] == k;
          }
        }
      }
      KeysCount(front, vals - {last});
    }
  }

}
