/** The conventional Some/None datatype, used wherever the source returns `None`
    or a value (a failed parse, a search that found nothing, a missing key). */
module Wrappers {

  datatype Option<+T> = None | Some(value: T)
}
