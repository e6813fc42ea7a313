/** The JavaScript `Map<string, V>` the engine uses as a key index. A `Map`
    remembers the order in which keys were first inserted; `set` on a key
    already present replaces its value and leaves its position. */
module OrderedMaps {

  datatype OrderedMap<V> = OrderedMap(order: seq<string>, entries: map<string, V>)
  {
    /** Every key appears once in `order`, and `order` lists exactly the keys. */
    ghost predicate Valid()
    {
      && (forall k :: k in entries <==> k in order)
      && (forall i, j :: 0 <= i < j < |order| ==> order[i] != order[j])
    }

    /** `m.has(k)`. */
    predicate Has(k: string)
    {
      k in entries
    }

    /** `m.set(k, v)`. */
    function Set(k: string, v: V): (r: OrderedMap<V>)
      requires Valid()
      ensures r.Valid()
      ensures r.entries == entries[k := v]
      ensures r.order == if k in entries then order else order + [k]
    {
      if k in entries then OrderedMap(order, entries[k := v])
      else OrderedMap(order + [k], entries[k := v])
    }

    /** `Array.from(m.values())`: the values in key-insertion order. */
    function Values(): (r: seq<V>)
      requires Valid()
      ensures |r| == |order|
      ensures forall i :: 0 <= i < |order| ==> r[i] == entries[order[i]]
    {
      seq(|order|, i requires 0 <= i < |order| && Valid() => entries[order[i]])
    }
  }

  /** `new Map()`. */
  function Empty<V>(): (r: OrderedMap<V>)
    ensures r.Valid() && r.Values() == []
  {
    OrderedMap([], map[])
  }

  /** Inserting a new key appends its value to the values. */
  lemma InsertAppends<V>(m: OrderedMap<V>, k: string, v: V)
    requires m.Valid() && !m.Has(k)
    ensures m.Set(k, v).Values() == m.Values() + [v]
  {
    var r := m.Set(k, v);
    forall i | 0 <= i < |m.order|
      ensures r.Values()[i] == m.Values()[i]
    {
      assert m.order[i] != k;
    }
  }
}
