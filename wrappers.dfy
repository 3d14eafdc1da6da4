/** Optional values, and the outcome of a Python call that either returns or raises. */
module Wrappers {

  datatype Option<+T> = None | Some(value: T)

  /** The Python exceptions the modelled code can raise (or let escape). */
  datatype PyError =
    | FileNotFound(path: string)    // open(), pandas.read_csv or json.load on a file that is not there
    | DecodeError(path: string)     // pandas.read_csv or json.load could not decode the file
    | KeyError(key: string)         // a missing dict key or DataFrame column
    | TypeError                     // indexing or iterating a JSON value of the wrong kind, feed(None)
    | AttributeError                // a method called on None
    | UnboundLocal(name: string)    // a local variable read before any branch assigned it

  /** What a Python call does: return a value, or raise. */
  datatype Result<+T> = Ok(value: T) | Raise(error: PyError)
}
