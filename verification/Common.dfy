/** What every part of the model shares. */
module Common {
  datatype Option<+T> = None | Some(value: T)

  /**
   The outcome of a call to the backend or of a command: it works, it fails without effect, or it
   takes effect and is still reported as failed.
   */
  datatype Outcome = Fine | Rejected | LostReply

  function Max(a: int, b: int): int { if a < b then b else a }
}
