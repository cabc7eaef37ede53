/** The optional value used wherever the bot has "a value or None". */
module Wrappers {

  datatype Option<+T> = None | Some(value: T)
}
