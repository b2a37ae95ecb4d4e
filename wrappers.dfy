/** The optional result used wherever the source checks `ContainsKey`,
    `TryGetValue` or reads a message field that may be missing. */
module Wrappers {

  datatype Option<+T> = None | Some(value: T)
}
