/** A nullable column or request value: SQL NULL / PHP null is `None`. */
module Nullable {

  datatype Option<+T> = None | Some(value: T)
}
