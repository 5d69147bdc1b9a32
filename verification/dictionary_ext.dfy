/** `Dictionary+`: inserting a key with an overriding value. */
module DictionaryExt {
  import opened Wrappers

  /** `insert(key:overriding:)`, with the mutated dictionary returned. The value
      is stored as is: when the value type is itself optional, a nil value is
      wrapped and stored, and the key is not removed. */
  function Insert<K, V>(m: map<K, V>, key: K, value: V): (r: map<K, V>)
    ensures key in r && r[key] == value
    ensures r.Keys == m.Keys + {key}
    ensures forall k :: k in m && k != key ==> r[k] == m[k]
  {
    m[key := value]
  }

  /** `inserting(key:overriding:)`: a subscript assignment on a copy; the
      receiver is a value and stays as it was. It agrees with `insert`. */
  function Inserting<K, V>(m: map<K, V>, key: K, value: V): (r: map<K, V>)
    ensures key in r && r[key] == value
    ensures r.Keys == m.Keys + {key}
    ensures forall k :: k in m && k != key ==> r[k] == m[k]
    ensures r == Insert(m, key, value)
  {
    m[key := value]
  }

  /** Inserting keeps an optional nil: the key is present afterwards, holding
      nil, and no key is removed. */
  lemma InsertNilKeepsKey<K, X>(m: map<K, Option<X>>, key: K)
    ensures key in Insert(m, key, None) && Insert(m, key, None)[key] == None
    ensures m.Keys <= Insert(m, key, None).Keys
  {
  }

  /** Inserting the same pair twice is inserting it once, and a later value
      overrides an earlier one. */
  lemma InsertIdempotent<K, V>(m: map<K, V>, key: K, value: V, later: V)
    ensures Insert(Insert(m, key, value), key, value) == Insert(m, key, value)
    ensures Insert(Insert(m, key, value), key, later) == Insert(m, key, later)
  {
  }
}
