/** Optional values: the C# nullable types (`int?`, a reference that may be null). */
module Wrappers {

  datatype Option<+T> = None | Some(value: T)
}
