/** Kotlin's nullable types: `T?` is `Option<T>`, with `null` as `None`. */
module Wrappers {

  datatype Option<+T> = None | Some(value: T) {

    /** The elvis operator `x ?: fallback`: the value when there is one, the fallback on null. */
    function OrElse(fallback: T): T {
      if this.Some? then value else fallback
    }
  }
}
