/** The optional value used across the model: a missing JSON key, JavaScript's
    NaN from parseInt, a task id that is not in the list. */
module Options {

  datatype Option<+T> = None | Some(value: T) {

    /** The value, or `default` when there is none. */
    function GetOr(default: T): T {
      match this
      case Some(v) => v
      case None => default
    }
  }
}
