/** Optional values and results with an error, shared by every module, and the Python
    exceptions that the modelled code lets escape. */
module Wrappers {

  datatype Option<+T> = None | Some(value: T)

  datatype Result<+T, +E> = Ok(value: T) | Err(error: E)

  /** `KeyError(k)`: a dictionary or row lookup of key `k` failed (`None`
      stands for Python's `None` used as a key). For `search`, whose
      `KeyError` carries a "not found" message naming the id, the id stands
      in for that message. `IntegrityError(id)`: SQLite refused a second row
      with primary key `id`. */
  datatype Exception = KeyError(key: Option<string>) | IntegrityError(id: string)
}
