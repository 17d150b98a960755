/** The browser's origin-scoped key-value store (`localStorage`) as an
    immutable string map, with the two keys the session code uses. */
module Storage {
  import opened Js

  type Store = map<string, string>

  /** Holds the bearer token, or the demo sentinel. */
  const TokenKey: string := "token"
  /** Holds the e-mail of a demo session. */
  const DemoEmailKey: string := "demo_email"

  /** `localStorage.getItem(key)`: `null` when the key is unset. */
  function GetItem(st: Store, key: string): (r: Option<string>)
    ensures r.Some? <==> key in st
    ensures r.Some? ==> r.value == st[key]
  {
    if key in st then Some(st[key]) else None
  }

  /** `localStorage.setItem(key, value)`: the key now reads back `value`
      and every other key reads as before. */
  function SetItem(st: Store, key: string, value: string): (r: Store)
    ensures GetItem(r, key) == Some(value)
    ensures forall k :: k != key ==> GetItem(r, k) == GetItem(st, k)
    ensures r.Keys == st.Keys + {key}
  {
    st[key := value]
  }

  /** `localStorage.removeItem(key)`: the key now reads as unset and every
      other key reads as before; removing an unset key changes nothing. */
  function RemoveItem(st: Store, key: string): (r: Store)
    ensures GetItem(r, key) == None
    ensures forall k :: k != key ==> GetItem(r, k) == GetItem(st, k)
    ensures r.Keys == st.Keys - {key}
    ensures key !in st ==> r == st
  {
    st - {key}
  }
}
