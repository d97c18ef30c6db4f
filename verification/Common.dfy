/** Small definitions every other module uses. */
module Common {
  datatype Option<+T> = None | Some(value: T) {
    /** Python's `x or default` for a missing value. */
    function GetOr(default: T): T {
      if Some? then value else default
    }
  }
}
