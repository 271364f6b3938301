/** Optional values: the Dafny counterpart of a C# reference or nullable value that may be null. */
module Wrappers {

  datatype Option<+T> = None | Some(value: T)
}
