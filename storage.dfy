/**
 * The browser's `localStorage` as a value: its string items, and whether
 * reading and writing work. Where they do not (storage access denied, private
 * browsing, a full quota) the corresponding call throws.
 */
module Storage {
  import opened Wrappers

  datatype Store = Store(items: map<string, string>, readable: bool, writable: bool)

  /** The outcome of one storage call: a value, or a thrown exception. */
  datatype Access<T> = Done(value: T) | Throws

  /** `localStorage.getItem(key)`: the item, `null` when absent. */
  function GetItem(st: Store, key: string): Access<Option<string>>
  {
    if !st.readable then Throws
    else if key in st.items then Done(Some(st.items[key]))
    else Done(None)
  }

  /** `localStorage.setItem(key, value)` */
  function SetItem(st: Store, key: string, value: string): Access<Store>
  {
    if !st.writable then Throws else Done(st.(items := st.items[key := value]))
  }

  /** `localStorage.removeItem(key)` */
  function RemoveItem(st: Store, key: string): Access<Store>
  {
    if !st.writable then Throws else Done(st.(items := st.items - {key}))
  }

  /** The store after a `setItem` whose exception the caller catches and ignores. */
  function SetOrKeep(st: Store, key: string, value: string): Store
  {
    match SetItem(st, key, value)
    case Done(next) => next
    case Throws => st
  }

  /** The store after a `removeItem` whose exception the caller catches and ignores. */
  function RemoveOrKeep(st: Store, key: string): Store
  {
    match RemoveItem(st, key)
    case Done(next) => next
    case Throws => st
  }

  /** The item a caller reads when it maps a thrown read to `null`. */
  function ReadOrNull(st: Store, key: string): Option<string>
  {
    match GetItem(st, key)
    case Done(v) => v
    case Throws => None
  }
}
