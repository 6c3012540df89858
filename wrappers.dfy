/** Option and Result, plus a model of a Go slice, which can be nil. */
module Wrappers {

  datatype Option<+T> = None | Some(value: T)

  datatype Result<+T, +E> = Ok(value: T) | Err(error: E)

  /** A Go slice. `Nil` and `Slice([])` are both empty; Go code can still tell them apart. */
  datatype Slice<+T> = Nil | Slice(items: seq<T>) {
    /** The elements, `[]` for a nil slice. */
    function Elements(): seq<T>
    {
      if Nil? then [] else items
    }
  }
}
