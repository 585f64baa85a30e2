/** Python's built-in dict as the all-loss search uses it: assignment to a
    key, and iteration over its items in insertion order. */
module OrderedDict {

  /** The keys in the order they were first inserted, and the current value of each. */
  datatype Dict<K(==), V> = Dict(keys: seq<K>, entries: map<K, V>) {

    /** Each key is listed once, and the listed keys are exactly those with a value. */
    ghost predicate Valid() {
      && (forall i, j :: 0 <= i < j < |keys| ==> keys[i] != keys[j])
      && entries.Keys == set i | 0 <= i < |keys| :: keys[i]
    }

    /** `d.items()`: key-value pairs in insertion order. */
    function Items(): (items: seq<(K, V)>)
      requires Valid()
      ensures |items| == |keys|
      ensures forall i :: 0 <= i < |items| ==>
        items[i].0 == keys[i] && items[i].0 in entries && items[i].1 == entries[items[i].0]
    {
      seq(|keys|, i requires 0 <= i < |keys| => (keys[i], entries[keys[i]]))
    }

    /** `d[key] = value`: a new key goes to the end of the order; an existing
        key keeps its place and gets the new value. */
    function Insert(key: K, value: V): (d: Dict<K, V>)
      requires Valid()
      ensures d.Valid()
      ensures key !in entries ==> d.Items() == Items() + [(key, value)]
      ensures key in entries ==>
        && |d.Items()| == |Items()|
        && forall i :: 0 <= i < |Items()| ==>
             d.Items()[i] == if Items()[i].0 == key then (key, value) else Items()[i]
    {
      if key in entries then Dict(keys, entries[key := value])
      else
        var keys' := keys + [key];
        assert (set i | 0 <= i < |keys'| :: keys'[i]) == (set i | 0 <= i < |keys| :: keys[i]) + {key} by {
          assert forall i :: 0 <= i < |keys| ==> keys'[i] == keys[i];
          assert keys'[|keys|] == key;
        }
        Dict(keys', entries[key := value])
    }

    /** A key has a value exactly when it appears among the items. */
    lemma ItemsHoldKeys(key: K)
      requires Valid()
      ensures key in entries <==> exists i :: 0 <= i < |Items()| && Items()[i].0 == key
    {
      if key in entries {
        var i :| 0 <= i < |keys| && keys[i] == key;
        assert Items()[i].0 == key;
      }
    }
  }

  /** `{}` */
  function Empty<K(==), V>(): (d: Dict<K, V>)
    ensures d.Valid() && d.Items() == []
  {
    Dict([], map[])
  }
}
