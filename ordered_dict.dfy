/** A Python dict: a finite map that remembers the order in which its keys
    were first inserted. Assigning to a key already present replaces its
    value and keeps its place. */
module OrderedDict {
  import opened Wrappers

  datatype Dict<K, V> = Dict(entries: map<K, V>, keys: seq<K>)

  predicate Distinct<K(==)>(keys: seq<K>) {
    forall i, j :: 0 <= i < j < |keys| ==> keys[i] != keys[j]
  }

  /** The key list holds every key of the map once and nothing else. */
  predicate Valid<K(==), V>(d: Dict<K, V>) {
    && Distinct(d.keys)
    && (forall k :: k in d.entries ==> k in d.keys)
    && (forall i :: 0 <= i < |d.keys| ==> d.keys[i] in d.entries)
  }

  /** {} */
  function Empty<K(==), V>(): (d: Dict<K, V>)
    ensures Valid(d) && d.keys == [] && d.entries == map[]
  {
    Dict(map[], [])
  }

  /** Assignment to a key: a new key goes to the end of the order. */
  function Put<K(==), V>(d: Dict<K, V>, key: K, value: V): (r: Dict<K, V>)
    requires Valid(d)
    ensures Valid(r)
    ensures key in r.entries && r.entries[key] == value
    ensures r.entries.Keys == d.entries.Keys + {key}
    ensures forall k :: k in d.entries && k != key ==> r.entries[k] == d.entries[k]
    ensures key in d.entries ==> r.keys == d.keys
    ensures key !in d.entries ==> r.keys == d.keys + [key]
  {
    Dict(d.entries[key := value], if key in d.entries then d.keys else d.keys + [key])
  }

  /** Lookup of a key that may be absent. */
  function Get<K(==), V>(d: Dict<K, V>, key: K): (r: Option<V>)
    ensures r.Some? <==> key in d.entries
    ensures r.Some? ==> r.value == d.entries[key]
  {
    if key in d.entries then Some(d.entries[key]) else None
  }

  /** Nothing is found in an empty dict. */
  lemma GetEmpty<K, V>(key: K)
    ensures Get(Empty<K, V>(), key) == None
  {
  }

  /** A later assignment to the same key wins; one to another key leaves it. */
  lemma GetPut<K, V>(d: Dict<K, V>, key: K, value: V, other: K)
    requires Valid(d)
    ensures Get(Put(d, key, value), key) == Some(value)
    ensures other != key ==> Get(Put(d, key, value), other) == Get(d, other)
  {
  }

  /** Two valid dicts with the same lookups and the same key order are equal. */
  lemma Extensionality<K, V>(a: Dict<K, V>, b: Dict<K, V>)
    requires Valid(a) && Valid(b)
    requires forall k :: Get(a, k) == Get(b, k)
    requires a.keys == b.keys
    ensures a == b
  {
    assert forall k :: k in a.entries <==> k in b.entries by {
      forall k
        ensures k in a.entries <==> k in b.entries
      {
        assert Get(a, k).Some? == Get(b, k).Some?;
      }
    }
    forall k | k in a.entries
      ensures a.entries[k] == b.entries[k]
    {
      assert Get(a, k) == Get(b, k);
    }
    assert a.entries == b.entries;
  }
}
