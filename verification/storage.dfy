/**
 * The two browser-storage entries the client reads and writes: `token` (the
 * bearer token) and `user` (the saved user record, already parsed). Storage
 * I/O itself is not modelled; these are its contents.
 */
module Storage {
  import opened Base
  import opened AuthStore

  datatype Store = Store(token: Option<string>, user: Option<User>)

  /** Both entries removed, as after a rejected token. */
  const Cleared: Store := Store(None, None)
}
