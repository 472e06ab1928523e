/** What several modules share. */
module Common {
  datatype Option<T> = None | Some(value: T)

  /** Slices joined into one sequence. */
  function Flatten<T>(slices: seq<seq<T>>): seq<T> {
    if slices == [] then [] else Flatten(slices[..|slices| - 1]) + slices[|slices| - 1]
  }
}
