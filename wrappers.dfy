/** The optional value used for the two pending selections of the game. */
module Wrappers {

  /** `None` stands for the source's `null` selection. */
  datatype Option<+T> = None | Some(value: T)
}
