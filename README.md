# rust-imap protocol engine in Dafny

A Dafny model of the client side of the IMAP protocol spoken by the
`imap` crate (rust-imap). It covers:

- how a `Client` and a `Session` build tagged command lines, quoting and
  validating their arguments;
- how a `Connection` reads the lines of one response up to the tagged status
  response that carries the same tag, and how every way that can end maps to
  an error, a panic or the data before the terminator;
- the AUTHENTICATE challenge loop, APPEND with its literal, and the IDLE
  lifecycle (`init`, `terminate`, `wait_inner`, the wait variants, the drop);
- the folds in `parse.rs` that turn the untagged lines into mailboxes,
  fetches, names and capabilities;
- the in-memory `MockStream`;
- the error taxonomy of `error.rs`.

Each command method is a method on a `Session` (or `Client`) class that owns a
`Connection` (class `Connections.Connection`: the stream, the bytes written so
far, the `u32` tag counter and the debug switch). Each method's postcondition
ties the new connection state and the result to a function on values
(`Transact`, `AppendSpec`, `InitSpec`, `TerminateSpec`, `WaitSpec`,
`Handshake`). The lemmas prove what those functions mean: the response
contract (`Framing.CollectExplained`), the quoting round trip, the refusal of
CR and LF, the order of writes in APPEND and IDLE, and the content of each
fold's result.

The stream is a value `Transport.Wire`: the octets the server will deliver,
interleaved with reads that fail (a read timeout while idling), and then
either end of file or a lasting error. `imap_proto::parse_response` is
outside the model. It is passed in as a function `Proto.Parser`, and the
only property assumed of it is that a parsed response consumes input
(`Proto.Progress`). Panics (`assert_eq!`, `unreachable!()`, a bad slice, the
`unwrap` of `String::from_utf8`) are an outcome of their own,
`Errors.Outcome.Panic`, next to `Ok` and `Err`.

Modules: `Base`, `Errors`, `Proto`, `Types`, `Transport`, `Framing`,
`Quoting`, `Commands`, `Connections`, `Parse`, `Sessions`, `Clients`,
`MockStreams`.

## Model

| member | source | states |
|---|---|---|
| Quoting.TwoPassesEscapeOnce | src/client.rs:25-29 | the two `replace` passes of `quote!` (backslashes first, then double quotes) escape every backslash and every double quote exactly once; no added backslash is doubled |
| Quoting.QuoteRoundTrip | src/client.rs:25-29 | removing the quotes and the escapes from a quoted string gives back the original string |
| Quoting.QuoteInjective | src/client.rs:25-29 | two different strings never quote to the same text |
| Quoting.QuoteKeeps | src/client.rs:25-29 | an octet other than backslash or double quote occurs in the quoted text exactly when it occurs in the original, so CR and LF survive quoting |
| Quoting.ValidateStr | src/client.rs:31-40 | an LF anywhere fails with `Validate('\n')`; a CR with no LF fails with `Validate('\r')`; otherwise the result is exactly `quote!` of the input, a quoted string with no CR or LF that reads back as the input |
| Quoting.ReadBodyEscape | src/client.rs:25-29 | reading an escaped body up to the first unescaped double quote gives back the original text and whatever follows the quote |
| Quoting.QuoteSelfDelimiting | src/client.rs:25-29 | a quoted string read from the front of a line ends at its own closing quote, so arguments that follow it are left untouched |
| Quoting.QuoteOneSpecial | src/client.rs:1381-1396 | one backslash or double quote between plain text is preceded by a backslash and the whole is put in double quotes, and `validate_str` accepts it |
| Commands.WordOctets | src/client.rs:472-475 | a command verb has one octet per character, every octet a capital letter or a space, each letter written with its own character code |
| Commands.LineFails | src/client.rs:472-482 | a command line is built exactly when no validated argument holds CR or LF; otherwise it fails with the `Validate` error of the first such argument; building a line never panics |
| Commands.LineIsOneLine | src/client.rs:472-689 | when no argument holds CR or LF, the command line holds neither, so it cannot end early or start another command |
| Commands.UncheckedArgumentsPassThrough | src/client.rs:586-592 | an argument inserted without validation reaches the command line, so an LF in it is sent |
| Commands.CopyAndMoveDiffer | src/client.rs:586-604 | a mailbox name with an LF is sent as is by COPY and refused by MOVE with `Validate('\n')` |
| Commands.LoginLine | src/client.rs:441-454 | LOGIN checks the username before the password, each with LF taking precedence over CR, and sends both quoted after the verb |
| Commands.CheckedReadsBack | src/client.rs:31-40 | every validated argument of a line that was built reads back as the original text |
| Framing.DecimalRoundTrip | src/client.rs:829-832 | the decimal rendering of the tag counter is a nonempty run of digits that denotes the counter |
| Framing.MatchTagInjective | src/client.rs:829-832 | different counter values give different tags |
| Framing.MatchTagIsAtom | src/client.rs:829-832 | a tag is `a` followed by at least one digit and holds no space, CR or LF |
| Framing.NextTag | src/client.rs:829-832 | `self.tag += 1` on a `u32` as a release build runs it: the successor, except that the largest value wraps to 0 |
| Framing.CommandLineSplits | src/client.rs:829-832 | a command line is its tag, one space and the command, and its first space ends the tag, so the tag reads back from the line |
| Framing.CollectExplained | src/client.rs:740-810 | for every server input, reading a response returns one of these. Success gives the data before a tagged OK with the expected tag. BAD or NO gives their text, or "no explanation given". A mismatched tag is a panic naming both tags. An unparsable line, or a tagged PREAUTH or BYE, gives `Invalid` holding the whole buffer. A failed read keeps what was read. Every octet in the buffer came from the wire, in order |
| Framing.CollectConsumes | src/client.rs:740-810 | reading a response only removes arrivals from the front of the stream |
| Framing.CollectErrors | src/client.rs:740-810 | the only errors a response search reports are BAD, NO, a parse error, an I/O error and a lost connection |
| Framing.VerdictExplained | src/client.rs:758-805 | the decision on a tagged line: the tag assertion first, then OK (data truncated at the line start), BAD, NO, or `Invalid` |
| Framing.CollectKnownTerminator | src/client.rs:740-810 | a nonempty starting buffer that already parses as the tagged OK is answered without reading, and the returned data is empty |
| Framing.CollectSingleOk | src/client.rs:858-865 | a tagged OK as the only line yields an empty response and consumes exactly that line |
| Framing.CollectThroughTerminator | src/client.rs:740-810 | untagged lines already read stay in the data when the tagged OK line arrives, and the wire advances by that one line |
| Framing.IncompleteRetriesSameStart | src/client.rs:745-781 | an incomplete parse is retried from the same line start once the next line has been appended |
| Framing.NextReadsOneLine | src/client.rs:740-810 | with a complete line at the front of the wire, one pass appends exactly that line and examines the buffer from the right start |
| Framing.CollectLiteral | src/client.rs:867-876 | an untagged line whose literal continues on the next line is parsed again with both lines, and the response is both lines |
| Transport.ReadUntilLFShape | src/client.rs:812-827 | `read_until(LF)` appends octets with no LF before the last one. The line ends in LF unless the stream closed first. It is empty without error exactly when the stream had already closed. It is the octets of the arrivals it took |
| Transport.ReadLine | src/client.rs:812-827 | an I/O error becomes `Io`. Zero octets on a closed stream, and only then, becomes `ConnectionLost`. With debug on, a one-octet line panics on the slice. Otherwise the result is the count of octets appended, and the rest of the stream is what was not read |
| Transport.ReadLineOfLine | src/client.rs:812-827 | a complete line at the front of the stream is read whole and leaves exactly the rest of the stream |
| Connections.Reply | src/client.rs:734-738 | `read_response` succeeds exactly when the search succeeded, and then returns its data; otherwise it returns the search's error or panic |
| Connections.Transact | src/client.rs:720-732 | a command that failed validation sends nothing and leaves the counter and the stream alone. Otherwise the counter advances, exactly one tagged line and CR LF are appended to the output, and the stream is read from its front |
| Connections.TransactOk | src/client.rs:729-738 | a successful exchange returns everything the server sent before the tagged OK line that carries the new tag |
| Connections.Discard | src/client.rs:720-722 | `.map(\|_\| ())` succeeds exactly when its argument does and otherwise propagates the failure |
| Connections.GreetingAccepted | src/client.rs:878-884 | any complete first line is accepted as the greeting and consumed |
| Connections.Connection.constructor | src/client.rs:358-366 | a new connection starts at tag 0 with debug off, nothing written and no read timeout |
| Connections.Connection.ReadLine | src/client.rs:812-827 | appends to the caller's buffer the line `Transport.ReadLine` describes and advances the stream past it |
| Connections.Connection.CreateCommand | src/client.rs:829-832 | advances the counter first, then returns the command prefixed by the new tag and a space |
| Connections.Connection.WriteLine | src/client.rs:834-842 | the output gains the buffer, then CR LF |
| Connections.Connection.WriteAll | src/client.rs:670-671 | the output gains exactly the buffer |
| Connections.Connection.ReadResponseOnto | src/client.rs:740-810 | the loop leaves the buffer, the outcome and the stream that `Framing.CollectFrom` describes |
| Connections.Connection.ReadResponse | src/client.rs:734-738 | the response read onto an empty buffer, as `Reply` of the search |
| Connections.Connection.RunCommand | src/client.rs:724-727 | the counter advances and the output gains exactly the tagged command line and CR LF |
| Connections.Connection.RunCommandAndReadResponse | src/client.rs:729-732 | the new state and the reply are those of `Transact` on the command |
| Connections.Connection.RunCommandAndCheckOk | src/client.rs:720-722 | as `Transact`, keeping only whether the exchange succeeded |
| Connections.Connection.ReadGreeting | src/client.rs:714-718 | reads one line and succeeds exactly when that read did |
| Parse.ParseAuthenticateResponse | src/parse.rs:8-17 | a challenge that does not match fails with `Authentication` holding the line. A match yields text with no LF, and the text followed by CR LF is a prefix of the line. The function never panics |
| Parse.AuthenticateResponseCaptures | src/parse.rs:8-17 | the converse: a line of the form marker, LF-free text, CR LF yields exactly that text |
| Parse.ParseMany | src/parse.rs:24-48 | the loop returns what `ManySpec` says: the mapped responses in order, or the first declined response, or `Invalid` with the bytes left where the parser stopped |
| Parse.ManyStep | src/parse.rs:24-48 | mapping one response and continuing on the rest gives the same result as the whole buffer |
| Parse.ManyOk | src/parse.rs:24-48 | a success mapped every response in the buffer, one result per response, in order, with no bytes left over |
| Parse.ParseNames | src/parse.rs:50-61 | `parse_many` with the LIST mapper |
| Parse.NamesOk | src/parse.rs:50-61 | a successful result holds one name per LIST response, with its attributes, delimiter and name, in order |
| Parse.ParseFetches | src/parse.rs:63-87 | `parse_many` with the FETCH mapper |
| Parse.AttributesFold | src/parse.rs:72-81 | folding a FETCH line's attributes concatenates its FLAGS lists in order and keeps the last UID; other attributes change nothing |
| Parse.FetchesOk | src/parse.rs:63-87 | a successful result holds one fetch per FETCH response, built from that line alone: its message number, its FLAGS and its last UID |
| Parse.ParseCapability | src/parse.rs:89-109 | the loop returns what `CapabilitySpec` says |
| Parse.CapabilityStep | src/parse.rs:89-109 | consuming one CAPABILITY response and continuing on the rest gives the same result |
| Parse.CapabilityOk | src/parse.rs:89-109 | a successful result saw only CAPABILITY responses and holds all their tokens in order |
| Parse.ParseMailbox | src/parse.rs:111-174 | the loop returns what `MailboxSpec` says. An untagged status other than OK reaches `unreachable!()`; any other response is an error |
| Parse.MailboxStepLemma | src/parse.rs:111-174 | folding one accepted response and continuing on the rest gives the same result |
| Parse.MailboxFold | src/parse.rs:111-174 | EXISTS, RECENT, UIDVALIDITY and UIDNEXT keep the last value seen. FLAGS and PERMANENTFLAGS accumulate in order. UNSEEN changes nothing |
| Parse.MailboxOk | src/parse.rs:111-174 | a successful mailbox, field by field, as those last values and concatenations over the whole buffer, starting from the default mailbox |
| Parse.EmptyBufferRejected | src/parse.rs:24-48 | all three folds fail on an empty buffer with `Invalid` of nothing |
| Errors.ParseDescription | src/error.rs:112-118 | each declared parse error has its fixed description; the undeclared ones have none |
| Errors.Description | src/error.rs:70-81 | wrapping errors (`Io`, `Tls`, `TlsHandshake`) describe their wrapped error; BAD, NO, ConnectionLost and Append have fixed texts; a parse error has its parse description |
| Errors.ErrorCause | src/error.rs:83-90 | exactly the I/O and TLS errors have a cause, the wrapped error |
| Errors.ParseCause | src/error.rs:120-124 | a parse error never has a cause |
| Errors.Display | src/error.rs:58-67 | wrapping errors (`Io`, `Tls`, `TlsHandshake`) display the wrapped error; every other error displays its description |
| Errors.ParseDisplay | src/error.rs:103-109 | a parse error displays its description |
| Errors.FromIo | src/error.rs:34-38 | the converted error has the I/O error as its cause |
| Errors.FromBuf | src/error.rs:40-44 | the converted error has the buffer's inner I/O error as its cause |
| Errors.FromHandshake | src/error.rs:46-50 | the converted error has the handshake error as its cause |
| Errors.FromTls | src/error.rs:52-56 | the converted error has the TLS error as its cause |
| Errors.DisplayOfFixedVariants | src/error.rs:58-81 | BAD, NO, ConnectionLost, Append and a failed authentication display their fixed texts |
| MockStreams.MockStream.constructor | src/mock_stream.rs:12-19 | the read buffer is as given; the cursor is at 0, nothing has been written and reads do not fail |
| MockStreams.MockStream.NewErr | src/mock_stream.rs:21-28 | an empty stream whose every read fails |
| MockStreams.MockStream.Read | src/mock_stream.rs:32-46 | a failing stream reports `Other`. At the end of the buffer the read reports `UnexpectedEof`. Otherwise it copies the next `min(buf.len, remaining)` octets to the front of `buf`, advances the cursor by that count and leaves the rest of `buf` alone |
| MockStreams.MockStream.Write | src/mock_stream.rs:50-53 | all of `buf` is appended and its length reported |
| MockStreams.MockStream.Flush | src/mock_stream.rs:55-57 | succeeds |
| MockStreams.MockStream.AsWire | src/mock_stream.rs:32-46 | a buffered reader sees the unread octets, then the error every further read reports |
| MockStreams.MockStreamNeverLosesConnection | src/mock_stream.rs:32-46 | reading past the end of a mock stream is an I/O error, never `ConnectionLost` |
| Sessions.Session.constructor | src/client.rs:459-462 | the session owns the connection it is given |
| Sessions.Session.Exchange | src/client.rs:729-732 | a line that failed validation is returned before anything is written; otherwise the exchange is `Transact` |
| Sessions.Session.Select | src/client.rs:472-475 | SELECT with the validated name, as `Transact`; the reply folded by `parse_mailbox` |
| Sessions.Session.Examine | src/client.rs:478-481 | EXAMINE with the validated name; the reply folded by `parse_mailbox` |
| Sessions.Session.FetchMessages | src/client.rs:488-491 | FETCH with both arguments as written; the reply folded by `parse_fetches` |
| Sessions.Session.UidFetch | src/client.rs:498-501 | UID FETCH with both arguments as written; the reply folded by `parse_fetches` |
| Sessions.Session.CheckOk | src/client.rs:720-722 | `run_command_and_check_ok`: as `Transact`, keeping only success |
| Sessions.Session.Noop | src/client.rs:504-506 | NOOP, keeping only success |
| Sessions.Session.Logout | src/client.rs:509-511 | LOGOUT, keeping only success |
| Sessions.Session.Create | src/client.rs:514-516 | CREATE with the validated name |
| Sessions.Session.Delete | src/client.rs:519-521 | DELETE with the validated name |
| Sessions.Session.Rename | src/client.rs:524-530 | RENAME with both names quoted, unvalidated |
| Sessions.Session.Subscribe | src/client.rs:534-536 | SUBSCRIBE with the name quoted |
| Sessions.Session.Unsubscribe | src/client.rs:540-542 | UNSUBSCRIBE with the name quoted |
| Sessions.Session.Capabilities | src/client.rs:545-548 | CAPABILITY; the reply folded by `parse_capability` |
| Sessions.Session.Expunge | src/client.rs:552-554 | EXPUNGE, keeping only success |
| Sessions.Session.UidExpunge | src/client.rs:559-561 | UID EXPUNGE with the set as written |
| Sessions.Session.Check | src/client.rs:564-566 | CHECK, keeping only success |
| Sessions.Session.Close | src/client.rs:570-572 | CLOSE, keeping only success |
| Sessions.Session.Store | src/client.rs:575-578 | STORE with both arguments as written; the reply folded by `parse_fetches` |
| Sessions.Session.UidStore | src/client.rs:580-583 | UID STORE with both arguments as written; the reply folded by `parse_fetches` |
| Sessions.Session.Copy | src/client.rs:586-588 | COPY with both arguments as written |
| Sessions.Session.UidCopy | src/client.rs:590-592 | UID COPY with both arguments as written |
| Sessions.Session.Move | src/client.rs:598-604 | MOVE with the set as written and the mailbox validated |
| Sessions.Session.UidMove | src/client.rs:609-615 | UID MOVE with the set as written and the mailbox validated |
| Sessions.Session.List | src/client.rs:619-630 | LIST with the reference quoted and the pattern as written; the reply folded by `parse_names` |
| Sessions.Session.Lsub | src/client.rs:634-645 | LSUB with the reference quoted and the pattern as written; the reply folded by `parse_names` |
| Sessions.Session.Status | src/client.rs:648-655 | STATUS with the validated name and the items as written; the reply folded by `parse_mailbox` |
| Sessions.Session.Search | src/client.rs:679-682 | SEARCH with the query as written; the untagged lines of the reply |
| Sessions.Session.UidSearch | src/client.rs:686-689 | UID SEARCH with the query as written; the untagged lines of the reply |
| Sessions.AppendLine | src/client.rs:665 | the APPEND line is the verb, the folder between double quotes and unescaped, and the content's length in braces |
| Sessions.AppendAnswer | src/client.rs:666-674 | after the APPEND line the tag does not change and the stream is only read from its front |
| Sessions.AppendSpec | src/client.rs:664-675 | APPEND advances the tag once and only reads the stream from its front |
| Sessions.AppendWaitsForContinuation | src/client.rs:664-675 | the append fails with `Append` exactly when the first line read is not a continuation request. Without a continuation request nothing but the APPEND line is written |
| Sessions.AppendSendsContent | src/client.rs:664-675 | after a continuation request the output is the APPEND line, the content and CR LF, in that order |
| Sessions.Session.Append | src/client.rs:664-675 | the new state and the outcome are those of `AppendSpec` |
| Sessions.Session.SendLiteral | src/client.rs:666-674 | the new state and the outcome after the APPEND line are those of `AppendAnswer` |
| Sessions.Session.Idle | src/client.rs:659-661 | a failed `init` drops the handle, which terminates the IDLE; a successful one returns an active handle with the default keep-alive of 29 minutes |
| Sessions.TerminateSpec | src/client.rs:166-174 | an IDLE terminates once. The first call writes the untagged DONE line, reads the response to the IDLE tag and marks the handle done; a later call does nothing and succeeds |
| Sessions.Rejected | src/client.rs:154-163 | the response to an IDLE that was not accepted only reads the stream from its front |
| Sessions.IdleAnswer | src/client.rs:144-163 | a continuation request starts idling without reading more. Any other answer is read as the command's response, and a tagged OK there is a panic. Nothing is written |
| Sessions.InitSpec | src/client.rs:144-163 | `init` writes exactly the tagged IDLE line and advances the tag; a successful init leaves the handle not done and has read one line |
| Sessions.Refresh | src/client.rs:182-188 | terminating and re-issuing IDLE keeps the tag in range and reads the stream from its front; a success consumes input |
| Sessions.WaitSpec | src/client.rs:179-193 | the wait ends with the first line or the first read that did not time out; it keeps the tag in range and reads the stream from its front |
| Sessions.TerminateIdempotent | src/client.rs:166-174 | a second `terminate` changes nothing and succeeds |
| Sessions.DoneAnswersIdle | src/client.rs:144-174 | after a successful `init`, `terminate` writes DONE after the IDLE line and matches the response against the IDLE command's tag |
| Sessions.RefreshWrites | src/client.rs:179-193 | refreshing an active IDLE writes DONE then a new IDLE line under the next tag |
| Sessions.TimeoutRefreshes | src/client.rs:179-193 | a read that times out refreshes the IDLE and waits again; a refresh that fails ends the wait |
| Sessions.IdleHandle.constructor | src/client.rs:134-142 | a new handle is active, with the default keep-alive |
| Sessions.IdleHandle.Init | src/client.rs:144-163 | the new state and outcome are those of `InitSpec` |
| Sessions.IdleHandle.AwaitIdle | src/client.rs:154-163 | the new state and outcome after the IDLE line are those of `IdleAnswer` |
| Sessions.IdleHandle.Terminate | src/client.rs:166-174 | the new state and outcome are those of `TerminateSpec` |
| Sessions.IdleHandle.WaitInner | src/client.rs:179-193 | the new state and outcome are those of `WaitSpec` |
| Sessions.IdleHandle.Drop | src/client.rs:240-245 | dropping the handle terminates it, ignoring the outcome |
| Sessions.IdleHandle.Wait | src/client.rs:195-197 | the wait, then the drop; the outcome is the wait's |
| Sessions.IdleHandle.SetKeepalive | src/client.rs:204-206 | the keep-alive becomes the interval |
| Sessions.IdleHandle.WaitTimeout | src/client.rs:229-238 | if setting the timeout fails, only the drop happens and that error is returned. Otherwise the wait runs with the timeout set. A wait that returns then clears the timeout, and ignores whether that succeeded; one that panics unwinds past the clearing. The timeout ends cleared only when the clearing ran and succeeded. The handle is dropped in every case, and the wait's outcome is returned |
| Sessions.IdleHandle.WaitKeepalive | src/client.rs:216-227 | `wait_timeout` with the keep-alive interval: that interval stays set when the wait panics or the clearing fails, otherwise the timeout is cleared; the handle is dropped in every case |
| Clients.AsciiIsUtf8 | src/client.rs:395 | ASCII text is accepted by `String::from_utf8` |
| Clients.AsciiChallengeDoesNotPanic | src/client.rs:394-397 | a challenge line in ASCII never makes the `unwrap` of `String::from_utf8` panic; its text is what `parse_authenticate_response` makes of it |
| Clients.Challenge | src/client.rs:394-397 | a challenge line that is not UTF-8 panics on the `unwrap`; otherwise it is `parse_authenticate_response` |
| Clients.TurnAnswer | src/client.rs:393-407 | one loop pass never changes the tag, reads the stream only from its front and only appends output. A pass that does not end the loop succeeded and read nothing more |
| Clients.HandshakeTurn | src/client.rs:388-407 | a pass that does not end the loop has consumed input, so the loop terminates |
| Clients.Handshake | src/client.rs:382-409 | the handshake keeps the tag, reads the stream from its front and only appends output |
| Clients.ChallengeAnswered | src/client.rs:393-403 | a challenge line is answered with the authenticator's response and CR LF, and the loop goes on with the next line |
| Clients.HandshakeEnds | src/client.rs:404-406 | the first line that is not a challenge ends the loop. It and what follows are read as the tagged response, and nothing more is written |
| Clients.MalformedChallenge | src/client.rs:393-397 | a challenge line not ended by CR LF fails with `Authentication` of the line, and nothing is written |
| Clients.AcceptedChallengeEndsInCRLF | src/parse.rs:8-17 | on a complete line, the challenge pattern matches only if the line ends in CR LF |
| Clients.Client.constructor | src/client.rs:358-366 | a fresh connection over the stream at tag 0, debug off |
| Clients.Client.Login | src/client.rs:441-454 | both strings are validated before anything is written, then the exchange is `Transact` of the LOGIN line. A session is returned exactly on success |
| Clients.Client.Authenticate | src/client.rs:369-379 | the tagged AUTHENTICATE line with the type as written, then `Handshake`. A session is returned exactly on success |
| Clients.Client.DoAuthHandshake | src/client.rs:382-409 | the loop leaves the state and outcome that `Handshake` describes. A session is returned exactly on success |
| Clients.Client.Pass | src/client.rs:388-407 | one pass of the loop, as `HandshakeTurn` |
| Clients.Client.Answer | src/client.rs:393-407 | what a pass does with the line it read, as `TurnAnswer` |
| Clients.FirstLoginWrites | src/client.rs:964-976 | a successful LOGIN on a fresh client writes exactly `a1 LOGIN "user" "pass"` and CR LF |
| Clients.LoginReadsBack | src/client.rs:441-454 | the LOGIN line sent for a username and a password without CR or LF reads back, verb, space, quoted string, space, quoted string, as exactly that username and password |
| Clients.RefusedLoginSendsNothing | src/client.rs:441-454 | credentials holding CR or LF are refused with `Validate` before anything is written; tag, stream and output are unchanged |
| Clients.TagsCountUp | src/client.rs:921-940 | as the `create_command` test has it, the first two commands of a fresh client are tagged `a1` and `a2` |

## Left out

- Framing.NextTag: models the release-build wrap of `self.tag += 1` on a `u32`; the overflow panic of a debug build (src/client.rs:830) is not modelled.
- Transport.ReadLine: reads that fail with `Interrupted` are not among the I/O errors, since `BufRead::read_until` retries them itself; a stream interrupted forever, on which `read_until` never returns, is not modelled.
- Opening connections: `connect`, `secure_connect` and `Client::secure` (TCP, TLS and the greeting over them) are not modelled. `read_greeting` is.
- `SetReadTimeout` for `TcpStream` and `TlsStream`: the result of setting the timeout is the `setting` parameter of `WaitTimeout` and `WaitKeepalive`, and the result of clearing it again is their `clearing` parameter. The timeout itself is the field `readTimeout`, and reads that time out are `Stall` arrivals on the wire.
- `Duration` is a whole number of seconds.
- The unsolicited-responses channel that `Session::new` creates is not modelled. The folds never send to it here.
- Debug tracing (`print!`) is not modelled, except the slice in `readline` that panics on a one-octet line with debug on, which is `Panic(BadSlice)`.
- Connections.Connection.WriteLine: writes and flushes never fail in the model. The `unwrap` of `String::from_utf8` in its debug trace is left out, since every caller passes text that came from a Rust string.
- Sessions.Session.Search and Sessions.Session.UidSearch: return the untagged lines of the reply. `parse_ids`, which turns them into a set of numbers, is not part of this model.
- `imap_proto::parse_response` is the parameter `Parser`, assumed only to consume input when it returns a response. Its grammar is not modelled.
- Parse.ParseAuthenticateResponse: the regex pattern `^+(.*)\r\n` is left open in one respect. Whether `^+` consumes the leading `+` or leaves it in the capture is the parameter `skip`, 1 or 0.
- The `regex` crate is not modelled beyond that pattern.
- `Error::BadResponse` and `Error::NoResponse` hold one text, as the client constructs them. The `Vec<String>` declared in src/error.rs is not modelled.
- The `Validate` and `Parse::Invalid` variants the client uses, but src/error.rs does not declare as written, are modelled with the payload the client gives them.
- `From<Response> for Error`, whose source is not shown, is modelled as the parse error `Unexpected` carrying the response.
- Parse.MailboxFold: the UNSEEN response code is ignored, as the source does; `unseen` stays None.
- `MockStream::with_eof` and `with_delay` are not part of this model.
- The `Authenticator` trait is the function parameter `process`.
- The base64 content of the authenticate test in src/client.rs is not restated; `ChallengeAnswered` states the general rule.
- The attribute loop of `parse_fetches` is a fold (`FoldLeft`) inside the mapper, because the mapper is a function value passed to `parse_many`.
- src/client.rs calls `parse_capabilities`, `parse_fetches`, `parse_names` and `parse_mailbox` with the unsolicited channel as a second argument. src/parse.rs defines `parse_capability` and the other folds with one argument. The model follows src/parse.rs, and `Capabilities` uses `parse_capability`.
- Concurrency, the drop order of Rust values other than `IdleHandle`, and memory ownership (`ZeroCopy`) are not modelled.
