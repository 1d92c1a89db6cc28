/** Option and Result wrappers, and the error conditions the servers raise. */
module Results {

  datatype Option<+T> = None | Some(value: T)

  /** An exception thrown by a handler step becomes `Err`. */
  datatype Result<+T> = Ok(value: T) | Err(error: Error) {
    predicate IsFailure() { Err? }

    function PropagateFailure<U>(): Result<U>
      requires Err?
    {
      Err(error)
    }

    function Extract(): T
      requires Ok?
    {
      value
    }
  }

  /** The exceptions of the three servers, with the message each carries. */
  datatype Error =
    | InvalidGameMode
    | InvalidAudioType
    | EmptyAnswer
    | InvalidResponseFormat
    | TypeError(what: string)
    | UriMalformed
    | Service(message: string)
  {
    /** The `error.message` that a 500 reply carries. */
    function Message(): string {
      match this
      case InvalidGameMode => "Invalid game mode"
      case InvalidAudioType => "Invalid audio type"
      case EmptyAnswer => "Invalid or empty user answer"
      case InvalidResponseFormat => "Invalid GPT response format"
      case TypeError(what) => what
      case UriMalformed => "URI malformed"
      case Service(message) => message
    }
  }
}
