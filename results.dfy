/** The failure-carrying result used in place of the source's `sys.exit` and raised exceptions. */
module Results {

  datatype Result<+T, +E> = Ok(value: T) | Err(error: E)

}
