/** Small helpers shared by the modules of the project. */
module Prelude {

  datatype Option<+T> = None | Some(value: T)

  function Max(a: int, b: int): int {
    if a < b then b else a
  }

  function RealMax(a: real, b: real): real {
    if a < b then b else a
  }

  function RealMin(a: real, b: real): real {
    if b < a then b else a
  }
}
