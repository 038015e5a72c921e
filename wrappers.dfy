/** Optional values: JavaScript's `undefined` / `null` / `NaN` results and absent object keys. */
module Wrappers {

  datatype Option<+T> = None | Some(value: T)
}

/** The browser's localStorage slot for one key, as the hooks read it back. */
module BrowserStorage {

  /** `Absent`: `getItem` returns null; `Holds(v)`: the stored text parses to `v`;
      `Corrupt`: the stored text makes `JSON.parse` throw. */
  datatype Stored<T> = Absent | Holds(value: T) | Corrupt
}
