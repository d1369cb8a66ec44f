/** The outcome types the model uses where the source returns `null`, throws or rejects. */
module Results {

  datatype Option<T> = None | Some(value: T)

  datatype Result<T, E> = Success(value: T) | Failure(error: E)
}
