/** Optional values, standing for the nullable fields of the dashboard (`number | null`, `string | null`). */
module Wrappers {

  datatype Option<+T> = None | Some(value: T)
}
