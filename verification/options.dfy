/** The optional value the model uses wherever JavaScript yields `undefined`,
    `null` or `NaN` instead of a value. */
module Options {

  datatype Option<T> = None | Some(value: T) {

    /** The wrapped value, or `default` when there is none (`x ?? default`). */
    function GetOr(default: T): T {
      match this
      case Some(v) => v
      case None => default
    }
  }
}
