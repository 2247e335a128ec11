/** The one failure the modelled code reports itself: a path that does not exist. */
module Outcomes {
  datatype FileError = FileNotFound(path: string)

  datatype Result<T> = Success(value: T) | Failure(error: FileError)
}
