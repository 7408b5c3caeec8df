/** The exceptions the contact book raises, the tagged results that replace
    them, and the `input_error` decorator that turns them into replies. */
module Errors {

  /** One constructor per raise site whose effect differs. */
  datatype Error =
    | InvalidPhone      // ValueError from Phone.__init__
    | InvalidDate       // ValueError from Birthday.__init__
    | DateOutOfRange    // ValueError from date.replace (Feb 29 in a common year, year 10000)
    | BadArguments      // ValueError: wrong argument count, or unpacking too few arguments
    | PhoneNotFound     // KeyError from Record.change_phone
    | ContactNotFound   // KeyError raised by a handler after a failed lookup
    | MissingArgument   // IndexError: args[0] on an empty argument list
    | DateOverflow      // OverflowError from date + timedelta past 9999-12-31
    | EmptyInput        // ValueError: unpacking the words of a blank command line

  /** The Python exception class each error is raised as. */
  datatype Exception = ValueError | KeyError | IndexError | OverflowError

  function ExceptionOf(e: Error): Exception
  {
    match e
    case InvalidPhone | InvalidDate | DateOutOfRange | BadArguments | EmptyInput => ValueError
    case PhoneNotFound | ContactNotFound => KeyError
    case MissingArgument => IndexError
    case DateOverflow => OverflowError
  }

  datatype Option<+T> = None | Some(value: T)

  datatype Result<+T> = Success(value: T) | Failure(error: Error)

  /** The reply `input_error` substitutes for a caught exception; `None` when
      the exception is not one it catches and so propagates to the caller. */
  function CaughtReply(x: Exception): Option<string>
  {
    match x
    case ValueError => Some("Please give me proper value.")
    case IndexError => Some("Enter the argument for the command.")
    case KeyError => Some("Contact not found.")
    case OverflowError => None
  }

  /** What a handler wrapped in `input_error` returns for the outcome of its
      body: the body's own reply, or the decorator's reply for its error. */
  function InputError(outcome: Result<string>): (reply: Option<string>)
    ensures outcome.Success? ==> reply == Some(outcome.value)
    ensures outcome.Failure? ==> (reply.None? <==> outcome.error == DateOverflow)
    ensures outcome.Failure? && reply.Some? ==>
              reply.value in {"Please give me proper value.", "Enter the argument for the command.", "Contact not found."}
  {
    match outcome
    case Success(message) => Some(message)
    case Failure(e) => CaughtReply(ExceptionOf(e))
  }
}
