/** Optional values: `None` stands for a JavaScript `null`/`undefined` or a C# `null`. */
module Wrappers {
  datatype Option<+T> = None | Some(value: T)
}
