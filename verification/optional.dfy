/** An optional value: how the model spells a dictionary key that may be absent. */
module Optional {

  datatype Option<+T> = None | Some(value: T) {

    /** The wrapped value, or `default` when absent; the model of Python's `d.get(key, default)`. */
    function ValueOr(default: T): T {
      match this
      case Some(v) => v
      case None => default
    }
  }
}
