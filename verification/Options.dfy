/** An optional value. */
module Options {
  datatype Option<T> = None | Some(value: T)

  function Lookup<T>(m: map<nat, T>, i: nat): Option<T> {
    if i in m then Some(m[i]) else None
  }
}
