/** The error codes of the reader, and the outcome of an operation that may fail. */
module Errors {
  datatype Error =
    | NoCard
    | CardLost
    | Activation
    | Transport
    | Protocol
    | NotEmrtd
    | Apdu
    | FileNotFound
    | AccessDenied
    | WrongKey
    | NoAccessMethod
    | PaceUnsupportedCurve
    | PaceUnsupportedMapping
    | PaceUnsupportedDh
    | PaceFailed
    | SecureMessaging
    | Parse
    | Unsupported
    | OutOfMemory
    | Storage
    | BufferTooSmall
    | InvalidInput
    | Cancelled
    | Internal

  datatype Result<+T> = Ok(value: T) | Err(error: Error)

  datatype Option<+T> = None | Some(value: T)

  /** The error a status word stands for; 9000 alone stands for none. */
  function FromSw(sw: nat): (e: Option<Error>)
    ensures e == None <==> sw == 0x9000
  {
    if sw == 0x9000 then None
    else if sw == 0x6A82 || sw == 0x6A83 then Some(FileNotFound)
    else if sw == 0x6982 || sw == 0x6983 then Some(AccessDenied)
    else if sw == 0x6300 then Some(WrongKey)
    else if sw == 0x6987 || sw == 0x6988 then Some(SecureMessaging)
    else if sw / 16 == 0x63C then Some(WrongKey)
    else Some(Apdu)
  }

  /** The errors and the status words that stand for them, in numbers; any other word is an error of its own. */
  lemma StatusInNumbers(sw: nat)
    ensures FromSw(sw) == None <==> sw == 0x9000
    ensures FromSw(sw) == Some(FileNotFound) <==> sw == 0x6A82 || sw == 0x6A83
    ensures FromSw(sw) == Some(AccessDenied) <==> sw == 0x6982 || sw == 0x6983
    ensures FromSw(sw) == Some(WrongKey) <==> sw == 0x6300 || 0x63C0 <= sw <= 0x63CF
    ensures FromSw(sw) == Some(SecureMessaging) <==> sw == 0x6987 || sw == 0x6988
    ensures FromSw(sw) in {None, Some(FileNotFound), Some(AccessDenied), Some(WrongKey), Some(SecureMessaging), Some(Apdu)}
  {
  }
}
