/** The two std::map operations the registries rely on: `insert`, which keeps
    an existing entry, and `operator[]`, which inserts a default value on a
    miss before returning the entry. */
module StdMap {

  /** std::map::insert({k, v}): adds k with v only when k is absent. */
  function Insert<K(==), V>(m: map<K, V>, k: K, v: V): (r: map<K, V>)
    ensures r.Keys == m.Keys + {k}
    ensures r[k] == (if k in m then m[k] else v)
    ensures forall j :: j in m && j != k ==> r[j] == m[j]
  {
    if k in m then m else m[k := v]
  }

  /** std::map::operator[](k) with `d` as the value-initialised entry: the
      value found and the map afterwards. */
  function Subscript<K(==), V>(m: map<K, V>, k: K, d: V): (r: (V, map<K, V>))
    ensures r.1 == Insert(m, k, d)
    ensures k in m ==> r.0 == m[k] && r.1 == m
    ensures k !in m ==> r.0 == d && r.1 == m[k := d]
  {
    if k in m then (m[k], m) else (d, m[k := d])
  }

  /** A second insert under the same key changes nothing: the first value stays. */
  lemma InsertKeepsFirst<K, V>(m: map<K, V>, k: K, v: V, w: V)
    ensures Insert(Insert(m, k, v), k, w) == Insert(m, k, v)
    ensures Insert(Insert(m, k, v), k, w)[k] == (if k in m then m[k] else v)
  {
  }

  /** After a lookup the key is present, and a second lookup sees the same value
      and leaves the map as the first one left it. */
  lemma SubscriptIsStable<K, V>(m: map<K, V>, k: K, d: V, e: V)
    ensures var (v, m1) := Subscript(m, k, d);
      k in m1 && Subscript(m1, k, e) == (v, m1)
  {
  }

  /** Some element of a non-empty key set, for loops that visit every entry of a map. */
  method AnyKey<K>(keys: set<K>) returns (key: K)
    requires keys != {}
    ensures key in keys
  {
    if forall k :: k !in keys {
      assert false;
    }
    key :| key in keys;
  }
}
