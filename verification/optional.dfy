/** Absence, as the handlers meet it: a JSON key or query parameter that was not
    sent, a lookup that found no row, a session that names nobody. */
module Optional {

  datatype Option<T> = None | Some(value: T)
  {
    /** Python's `dict.get(key, default)`: the value if there is one, else `default`. */
    function GetOr(default: T): T
    {
      if Some? then value else default
    }
  }
}
