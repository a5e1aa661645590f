/** Optional values and the larger of two numbers, shared by the models of this project. */
module Wrappers {

  datatype Option<+T> = None | Some(value: T)

  function Max(a: nat, b: nat): nat { if a < b then b else a }
}
