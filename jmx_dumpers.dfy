/** The top-level JMX dumper configuration: a map from `host:port` keys to
    per-endpoint dumper settings, filled one JSON property at a time. */
module JmxDumpers {
  import opened Wrappers

  /** The key a JSON property is stored under: a missing (`None`) key becomes "". */
  function StoredKey(key: Option<string>): (k: string)
    ensures key.Some? ==> k == key.value
    ensures key.None? ==> k == ""
  {
    if key.None? then "" else key.value
  }

  /** The map after one add: `value` stored under the key's stored form. */
  function Added<V>(m: map<string, V>, key: Option<string>, value: V): map<string, V>
  {
    m[StoredKey(key) := value]
  }

  /** The configuration object.  `V` stands for the per-endpoint dumper
      settings, whose class is not part of this model. */
  class JmxDumpersConfig<V> {
    var entries: map<string, V>

    constructor()
      ensures entries == map[]
    {
      entries := map[];
    }

    /** The map the configuration exposes: the one `Add` writes to. */
    function Map(): (m: map<string, V>)
      reads this
    {
      entries
    }

    /** Stores `value` under `key`, or under "" when there is no key,
        replacing any earlier value there and leaving every other key as it
        was; the map grows by at most one entry. */
    method Add(key: Option<string>, value: V)
      modifies this
      ensures entries == Added(old(entries), key, value)
      ensures StoredKey(key) in Map() && Map()[StoredKey(key)] == value
      ensures forall k :: k != StoredKey(key) ==> (k in Map() <==> k in old(Map())) && (k in Map() ==> Map()[k] == old(Map())[k])
      ensures |old(Map())| <= |Map()| <= |old(Map())| + 1
    {
      entries := entries[StoredKey(key) := value];
    }
  }

  /** Two consecutive adds under the same stored key leave the map the second
      alone would: only the last value remains, whether each add named the
      key or, for "", named no key at all. */
  lemma LastAddWins<V>(m: map<string, V>, k1: Option<string>, k2: Option<string>, v: V, w: V)
    requires StoredKey(k1) == StoredKey(k2)
    ensures Added(Added(m, k1, v), k2, w) == Added(m, k2, w)
    ensures StoredKey(k2) in Added(Added(m, k1, v), k2, w) && Added(Added(m, k1, v), k2, w)[StoredKey(k2)] == w
  {
  }
}
