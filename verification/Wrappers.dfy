// Types that several modules share: Option, for an optional Go value, and byte strings.
module Wrappers {
  datatype Option<+T> = None | Some(value: T)

  type Bytes = seq<bv8>
}
