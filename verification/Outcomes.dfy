/** What an operation may come back with. Errors are told apart by class, never by prose. */
module Outcomes {
  datatype Option<+T> = None | Some(value: T)

  datatype Error =
    | NameUnavailable
    | UnknownActor
    | MalformedAddress
    | UnknownRecipient
    | RemoteMailbox
    | NoSuchMessage
    | PolicyRefusal(policy: string)
    | ObserverFailed

  datatype Result<+T> = Ok(value: T) | Err(error: Error)
  {
    predicate IsFailure() { Err? }

    function PropagateFailure<U>(): Result<U>
      requires Err?
    {
      Err(error)
    }

    function Extract(): T
      requires Ok?
    {
      value
    }
  }
}
