/** Outcome of an operation that the library aborts on a violated check. */
module Results {

  /** `Failure` stands for a fatal `ASSERT`/`CHECK` of the library: the
      operation stops and produces nothing. */
  datatype Result<+T, +E> = Success(value: T) | Failure(error: E)
}
