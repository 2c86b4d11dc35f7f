/** A value that may be absent. */
module Options {
  datatype Option<+T> = None | Some(value: T) {
    function GetOr(default: T): T { if Some? then value else default }
    function Or(other: Option<T>): Option<T> { if Some? then this else other }
  }
}
