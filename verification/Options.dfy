/** A value that may be missing: the model of null pointers and of unset fields. */
module Options {
  datatype Option<+T> = None | Some(value: T)
  {
    function UnwrapOr(default: T): T {
      if Some? then value else default
    }
  }
}
