/** Optional values. In this model `None` stands for the JavaScript values a
    numeric comparison treats as "not a number" (`NaN`, `undefined`) and for
    a missing lookup result (`null`). */
module Wrappers {

  datatype Option<+T> = None | Some(value: T)
}
