/** The client's error taxonomy (src/error.rs) and the result type of every operation. */
module Errors {
  import opened Base
  import opened Proto

  /** Kinds of `std::io::Error` the model distinguishes. `Interrupted` is
      not among them: `BufRead::read_until` retries such a read itself, so it
      never reaches the client. */
  datatype IoErrorKind = TimedOut | WouldBlock | UnexpectedEof | Other

  /** A foreign error value: only its kind (for I/O), its description and its display text matter here. */
  datatype IoError = IoError(kind: IoErrorKind, description: string, display: string)
  datatype TlsError = TlsError(description: string, display: string)
  datatype TlsHandshakeError = TlsHandshakeError(description: string, display: string)

  /** `bufstream::IntoInnerError`, which wraps an I/O error. */
  datatype BufError = BufError(inner: IoError)

  datatype ParseError =
    | StatusResponse(lines: seq<Bytes>)
    | Capability(lines: seq<Bytes>)
    | Authentication(line: Bytes)
    /** Used by the client but not declared in src/error.rs. */
    | Invalid(data: Bytes)
    /** A response a fold did not expect; stands for the unshown `From<Response>` conversion. */
    | Unexpected(response: Response)

  datatype Error =
    | Io(io: IoError)
    | TlsHandshake(handshake: TlsHandshakeError)
    | Tls(tls: TlsError)
    | BadResponse(text: Bytes)
    | NoResponse(text: Bytes)
    | ConnectionLost
    | Parse(parse: ParseError)
    /** Used by the client but not declared in src/error.rs; carries the offending character. */
    | Validate(offending: char)
    | Append

  /** What `cause` returns: the wrapped foreign error. */
  datatype Cause = IoCause(io: IoError) | TlsCause(tls: TlsError) | HandshakeCause(handshake: TlsHandshakeError)

  /** Why the client panics: a failed `assert_eq!` on the terminator tag, an
      `unreachable!()`, a slice whose end lies before its start, or an
      `unwrap` of `String::from_utf8` on octets that are not UTF-8. */
  datatype Fault = TagMismatch(expected: Bytes, got: Bytes) | Unreachable | BadSlice | NotUtf8

  /** The outcome of every client operation: Rust's `Result<T>`, plus the panics that end the program. */
  datatype Outcome<T> = Ok(value: T) | Err(error: Error) | Panic(fault: Fault) {
    predicate IsFailure() { !Ok? }
    function PropagateFailure<U>(): Outcome<U>
      requires !Ok?
    {
      if Err? then Err(error) else Panic(fault)
    }
    function Extract(): T
      requires Ok?
    {
      value
    }
  }

  const BadResponseText := "Bad Response"
  const NoResponseText := "No Response"
  const ConnectionLostText := "Connection lost"
  const AppendText := "Could not append mail to mailbox"
  const StatusResponseText := "Unable to parse status response"
  const CapabilityText := "Unable to parse capability response"
  const AuthenticationText := "Unable to parse authentication response"

  /** `ParseError::description`; None for the variants src/error.rs does not declare. */
  function ParseDescription(e: ParseError): (d: Option<string>)
    ensures d.Some? <==> (e.StatusResponse? || e.Capability? || e.Authentication?)
    ensures e.StatusResponse? ==> d == Some(StatusResponseText)
    ensures e.Capability? ==> d == Some(CapabilityText)
    ensures e.Authentication? ==> d == Some(AuthenticationText)
  {
    match e
    case StatusResponse(_) => Some(StatusResponseText)
    case Capability(_) => Some(CapabilityText)
    case Authentication(_) => Some(AuthenticationText)
    case Invalid(_) => None
    case Unexpected(_) => None
  }

  /** `Error::description`: wrapping variants delegate; the others have a fixed text.
      None for `Validate`, which src/error.rs does not describe. */
  function Description(e: Error): (d: Option<string>)
    ensures e.BadResponse? ==> d == Some(BadResponseText)
    ensures e.NoResponse? ==> d == Some(NoResponseText)
    ensures e.ConnectionLost? ==> d == Some(ConnectionLostText)
    ensures e.Append? ==> d == Some(AppendText)
    ensures e.Io? ==> d == Some(e.io.description)
    ensures e.Tls? ==> d == Some(e.tls.description)
    ensures e.TlsHandshake? ==> d == Some(e.handshake.description)
    ensures e.Parse? ==> d == ParseDescription(e.parse)
    ensures d.None? <==> (e.Validate? || (e.Parse? && (e.parse.Invalid? || e.parse.Unexpected?)))
  {
    match e
    case Io(x) => Some(x.description)
    case Tls(x) => Some(x.description)
    case TlsHandshake(x) => Some(x.description)
    case Parse(x) => ParseDescription(x)
    case BadResponse(_) => Some(BadResponseText)
    case NoResponse(_) => Some(NoResponseText)
    case ConnectionLost => Some(ConnectionLostText)
    case Append => Some(AppendText)
    case Validate(_) => None
  }

  /** `Error::cause`: only the three wrapping variants have one. */
  function ErrorCause(e: Error): (c: Option<Cause>)
    ensures c.Some? <==> (e.Io? || e.Tls? || e.TlsHandshake?)
    ensures e.Io? ==> c == Some(IoCause(e.io))
    ensures e.Tls? ==> c == Some(TlsCause(e.tls))
    ensures e.TlsHandshake? ==> c == Some(HandshakeCause(e.handshake))
  {
    match e
    case Io(x) => Some(IoCause(x))
    case Tls(x) => Some(TlsCause(x))
    case TlsHandshake(x) => Some(HandshakeCause(x))
    case _ => None
  }

  /** `ParseError::cause` is always None. */
  function ParseCause(e: ParseError): (c: Option<Cause>)
    ensures c.None?
  {
    None
  }

  /** `Display` for `Error`: wrapping variants display the wrapped error, the rest
      write their description. */
  function Display(e: Error): (s: Option<string>)
    ensures !(e.Io? || e.Tls? || e.TlsHandshake?) ==> s == Description(e)
    ensures e.Io? ==> s == Some(e.io.display)
    ensures e.Tls? ==> s == Some(e.tls.display)
    ensures e.TlsHandshake? ==> s == Some(e.handshake.display)
  {
    match e
    case Io(x) => Some(x.display)
    case Tls(x) => Some(x.display)
    case TlsHandshake(x) => Some(x.display)
    case _ => Description(e)
  }

  /** `Display` for `ParseError` writes its description. */
  function ParseDisplay(e: ParseError): (s: Option<string>)
    ensures s == ParseDescription(e)
  {
    ParseDescription(e)
  }

  function FromIo(e: IoError): (r: Error)
    ensures ErrorCause(r) == Some(IoCause(e))
  {
    Io(e)
  }

  function FromBuf(e: BufError): (r: Error)
    ensures ErrorCause(r) == Some(IoCause(e.inner))
  {
    Io(e.inner)
  }

  function FromHandshake(e: TlsHandshakeError): (r: Error)
    ensures ErrorCause(r) == Some(HandshakeCause(e))
  {
    TlsHandshake(e)
  }

  function FromTls(e: TlsError): (r: Error)
    ensures ErrorCause(r) == Some(TlsCause(e))
  {
    Tls(e)
  }

  /** Non-wrapping errors display exactly their fixed description. */
  lemma DisplayOfFixedVariants(text: Bytes)
    ensures Display(BadResponse(text)) == Some("Bad Response")
    ensures Display(NoResponse(text)) == Some("No Response")
    ensures Display(ConnectionLost) == Some("Connection lost")
    ensures Display(Append) == Some("Could not append mail to mailbox")
    ensures Display(Parse(Authentication(text))) == Some("Unable to parse authentication response")
  {
  }
}
