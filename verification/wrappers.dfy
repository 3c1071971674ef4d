/** Optional values: the model's counterpart of an absent property, of `null`
    and of a `Partial<...>` field that the caller left out. */
module Wrappers {

  datatype Option<+T> = None | Some(value: T) {

    /** The wrapped value, or `default` when there is none (the `??`-style
        fallback that a spread overlay performs field by field). */
    function GetOr(default: T): T {
      match this
      case Some(v) => v
      case None => default
    }

    /** This value when there is one, otherwise `other`: the field a later
        spread leaves for an earlier one to supply. */
    function OrElse(other: Option<T>): Option<T> {
      match this
      case Some(_) => this
      case None => other
    }
  }
}
