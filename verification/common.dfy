/** A nullable value: the model's stand-in for `T | null` in the game's state. */
module Common {

  datatype Option<+T> = None | Some(value: T)
}
