/** The nullable values the client handles (`localStorage.getItem` results,
    `Array.prototype.find` results, optional request fields). */
module Wrappers {

  datatype Option<+T> = None | Some(value: T)
}
