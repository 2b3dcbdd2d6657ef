/** The optional value used where the emulator returns an empty std::optional or a null pointer. */
module Wrappers {
  datatype Option<+T> = None | Some(value: T)
}
