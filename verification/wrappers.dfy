/** Optional values, used wherever the register's Python code either yields a
    value or has nothing (a failed `float()`, a product that is not found). */
module Wrappers {

  datatype Option<+T> = None | Some(value: T)
}
