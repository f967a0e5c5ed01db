/** Outcomes of operations that may throw in the original. */
module Results {
  datatype Option<+T> = None | Some(value: T)

  /** Thrown stands for any exception the operation raises. */
  datatype Result<+T> = Ok(value: T) | Thrown
}
