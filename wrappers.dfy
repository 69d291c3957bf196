/** Optional values: a CPI quote that is not published, or an amount that cannot be computed. */
module Wrappers {

  datatype Option<+T> = None | Some(value: T)
}
