/**
 * The response vocabulary of the external IMAP response parser (the
 * `imap_proto` crate), reduced to what this client inspects. The parser
 * itself is foreign: it is a parameter of type `Parser` wherever it is used.
 */
module Proto {
  import opened Base

  /** Status of a tagged or untagged status response (section 7.1 of RFC 3501). */
  datatype Status = OK | NO | BAD | PREAUTH | BYE

  /** Bracketed response codes (section 7.1 of RFC 3501). */
  datatype ResponseCode =
    | UidValidity(uidValidity: nat)
    | UidNext(uidNext: nat)
    | PermanentFlags(permanentFlags: seq<Bytes>)
    | Unseen(unseen: nat)
    | ReadOnly
    | ReadWrite
    | OtherCode(text: Bytes)

  /** Mailbox data (section 7.2 and 7.3 of RFC 3501), as far as the parser knows it. */
  datatype MailboxDatum =
    | Exists(count: nat)
    | Recent(recentCount: nat)
    | Flags(flags: seq<Bytes>)
    | List(attributes: seq<Bytes>, delimiter: Bytes, name: Bytes)

  /** Message attributes of a FETCH response (section 7.4.2 of RFC 3501). */
  datatype AttributeValue =
    | FlagsAttr(flags: seq<Bytes>)
    | UidAttr(uid: nat)
    | OtherAttr(text: Bytes)

  datatype Response =
    | Done(tag: Bytes, status: Status, code: Option<ResponseCode>, information: Option<Bytes>)
    | Data(status: Status, code: Option<ResponseCode>, information: Option<Bytes>)
    | MailboxData(datum: MailboxDatum)
    | FetchData(message: nat, attributes: seq<AttributeValue>)
    | Capabilities(capabilities: seq<Bytes>)
    | Continue(code: Option<ResponseCode>, information: Option<Bytes>)
    | Expunge(message: nat)

  /** What one parser call yields: the rest of the input and one response,
      "more input needed" (a literal announced by `{N}` is not complete), or failure. */
  datatype ParseOutcome =
    | Parsed(rest: Bytes, response: Response)
    | Incomplete
    | Failed

  type Parser = Bytes -> ParseOutcome

  /** The parser consumes input: a parsed response leaves strictly less behind.
      This is what lets the folds over a response buffer terminate. */
  ghost predicate Progress(p: Parser) {
    forall s :: p(s).Parsed? ==> |p(s).rest| < |s|
  }
}
