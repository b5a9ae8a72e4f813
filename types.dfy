/** Values shared by every component of the chat client. */
module Types {

  datatype Option<+T> = None | Some(value: T) {
    /** `x || fallback` for a value that is either absent or truthy. */
    function GetOr(default: T): T {
      match this
      case Some(v) => v
      case None => default
    }
  }

  /** One chat message. `id` is the `Date.now()` value at creation and
      `timestamp` the `toLocaleTimeString()` text; both come from the clock,
      so every handler that creates a message takes them as parameters. */
  datatype Message = Message(id: int, content: string, isUser: bool, timestamp: string)

}
