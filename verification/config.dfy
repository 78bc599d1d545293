/** The configuration store as the modelled code uses it: a table from dotted
    keys to values with `get`, `get` with a default, `set` and `delete`.
    `save()` only flushes this table to disk, so it is not a separate step here. */
module Config {
  import opened Js

  type Store = Js.Object

  /** `config.get(key)`: `undefined` for a key that is not set. */
  function Get(store: Store, key: string): Value {
    Prop(store, key)
  }

  /** `config.get(key, fallback)`: the fallback when the key reads `undefined`. */
  function GetOr(store: Store, key: string, fallback: Value): (v: Value)
    ensures Get(store, key) != Undefined ==> v == Get(store, key)
    ensures Get(store, key) == Undefined ==> v == fallback
  {
    if Get(store, key) == Undefined then fallback else Get(store, key)
  }

  function Set(store: Store, key: string, v: Value): Store {
    store[key := v]
  }

  function Delete(store: Store, key: string): Store {
    store - {key}
  }
}
