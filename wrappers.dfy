/** Optional values. `None` stands for a C# string reference that is null. */
module Wrappers {
  datatype Option<+T> = None | Some(value: T)
}
