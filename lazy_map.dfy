/**
 * A get-or-create cache: a map whose lookup creates, stores and returns a
 * value for a missing key.
 */
module LazyMaps {
  import opened Wrappers

  class LazyMap<K(==), V> {
    /** The stored entries. */
    var entries: map<K, V>
    /** The creator used for a missing key when the lookup brings none of its own. */
    const defaultCreate: K -> V

    /** An empty cache with the given default creator. */
    constructor(defaultCreate: K -> V)
      ensures entries == map[]
      ensures this.defaultCreate == defaultCreate
    {
      entries := map[];
      this.defaultCreate := defaultCreate;
    }

    /** The value created for a missing key: by `create` when given, otherwise by the default creator. */
    function HandleMiss(key: K, create: Option<K -> V>): (v: V)
      ensures create.Some? ==> v == create.value(key)
      ensures create.None? ==> v == defaultCreate(key)
    {
      match create
      case Some(f) => f(key)
      case None => defaultCreate(key)
    }

    /**
     * The lookup: a stored value is returned and the cache does not change;
     * for a missing key the created value is stored and returned. Either
     * way the key then maps to the returned value, so an immediate second
     * lookup returns the same value without creating anything.
     */
    method Get(key: K, create: Option<K -> V>) returns (v: V)
      modifies this
      ensures key in old(entries) ==> v == old(entries)[key] && entries == old(entries)
      ensures key !in old(entries) ==>
                && v == (if create.Some? then create.value(key) else defaultCreate(key))
                && entries == old(entries)[key := v]
      ensures key in entries && entries[key] == v
    {
      if key in entries {
        return entries[key];
      }
      v := HandleMiss(key, create);
      entries := entries[key := v];
    }
  }

  /** Two lookups of the same key in a row return the same value, whatever creators they bring. */
  method GetTwice<K(==), V>(m: LazyMap<K, V>, key: K, create1: Option<K -> V>, create2: Option<K -> V>)
    returns (v1: V, v2: V)
    modifies m
    ensures v1 == v2
    ensures key in m.entries && m.entries[key] == v1
  {
    v1 := m.Get(key, create1);
    v2 := m.Get(key, create2);
  }
}
