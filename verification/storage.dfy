/** The browser's `localStorage` as a string-to-string map, and JavaScript
    truthiness of the `string | null` it hands back. */
module Storage {
  import opened Wrappers

  type Store = map<string, string>

  /** The fixed key the session token is stored under. */
  const TokenKey: string := "token"

  /** `localStorage.getItem(key)`: `null` when the key is absent. */
  function GetItem(st: Store, key: string): Option<string>
  {
    if key in st then Some(st[key]) else None
  }

  /** `localStorage.setItem(key, v)`. */
  function SetItem(st: Store, key: string, v: string): (r: Store)
    ensures GetItem(r, key) == Some(v)
    ensures forall k :: k != key ==> GetItem(r, k) == GetItem(st, k)
  {
    st[key := v]
  }

  /** `localStorage.removeItem(key)`: the key is gone, every other entry stays. */
  function RemoveItem(st: Store, key: string): (r: Store)
    ensures GetItem(r, key) == None
    ensures forall k :: k != key ==> GetItem(r, k) == GetItem(st, k)
  {
    st - {key}
  }

  /** JavaScript truthiness of a `string | null`: not null and not empty. */
  predicate Truthy(v: Option<string>)
  {
    v.Some? && v.value != ""
  }
}
