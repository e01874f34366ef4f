/** The usual optional-value datatype, used where the game code either assigns a value or does not. */
module Wrappers {

  datatype Option<+T> = None | Some(value: T)

}
