/** A value that may be absent: what JavaScript expresses with `undefined`
    (the result of `Array.prototype.find`) or `NaN` (a failed `parseInt`). */
module Optional {

  datatype Option<+T> = None | Some(value: T)
  {
    /** The value, or `default` when there is none (JavaScript's `v || default`). */
    function GetOr(default: T): T
    {
      match this
      case Some(v) => v
      case None => default
    }
  }
}
