/** The optional value used wherever the bots return `null` or read a property that may be missing. */
module Opt {
  datatype Option<T> = None | Some(value: T)
  {
    /** `x ?? d` / `x || d` for a value that is either missing or present. */
    function GetOr(d: T): T {
      if Some? then value else d
    }
  }
}
