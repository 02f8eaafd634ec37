/**
 * `Session` and `IdleHandle` of src/client.rs: the commands of an
 * authenticated connection, each one exchange of a command line and its
 * response, and the IDLE lifecycle of RFC 2177.
 */
module Sessions {
  import opened Base
  import opened Proto
  import opened Errors
  import opened Transport
  import opened Types
  import opened Framing
  import opened Connections
  import opened Parse
  import opened Commands

  /** The reply of an exchange passed to one of the response folds. */
  function MailboxReply(p: Parser, reply: Outcome<Bytes>): Outcome<Mailbox>
    requires Progress(p)
  {
    if reply.Ok? then MailboxSpec(p, reply.value, DefaultMailbox) else reply.PropagateFailure()
  }

  function FetchesReply(p: Parser, reply: Outcome<Bytes>): Outcome<seq<Fetch>>
    requires Progress(p)
  {
    if reply.Ok? then ManySpec(p, reply.value, FetchMapper, []) else reply.PropagateFailure()
  }

  function NamesReply(p: Parser, reply: Outcome<Bytes>): Outcome<seq<Name>>
    requires Progress(p)
  {
    if reply.Ok? then ManySpec(p, reply.value, NameMapper, []) else reply.PropagateFailure()
  }

  function CapabilitiesReply(p: Parser, reply: Outcome<Bytes>): Outcome<seq<Bytes>>
    requires Progress(p)
  {
    if reply.Ok? then CapabilitySpec(p, reply.value, []) else reply.PropagateFailure()
  }

  // ------------------------------------------------------------------ append

  /** What one call changed on the connection and how it ended. */
  datatype Effect = Effect(after: ConnState, outcome: Outcome<()>)

  /** `APPEND "folder" {n}`: the folder between double quotes, not escaped,
      and the literal's octet count in braces. */
  function AppendCommand(folder: Bytes, n: nat): Bytes {
    Word("APPEND") + [SP] + [DQUOTE] + folder + [DQUOTE] + [SP] + [LBRACE] + Decimal(n) + [RBRACE]
  }

  lemma AppendLine(folder: Bytes, n: nat)
    ensures Line("APPEND", [Bare(folder), Size(n)]) == Ok(AppendCommand(folder, n))
  {
    FieldsOfTwo(Word("APPEND"), Bare(folder), Size(n));
    assert Word("APPEND") + [SP] + ([DQUOTE] + folder + [DQUOTE]) + [SP] + ([LBRACE] + Decimal(n) + [RBRACE])
        == AppendCommand(folder, n);
  }

  /** What `append` does with the line that answers the APPEND command, `s`
      being the connection once that line is read: only a continuation
      request lets the content and CR LF out, and then the tagged response is
      read. */
  function AppendAnswer(p: Parser, s: ConnState, content: Bytes, l: LineRead): (e: Effect)
    requires l.result.Ok? ==> |l.line| > 0
    ensures e.after.tag == s.tag && e.after.debug == s.debug
    ensures Consumed(s.wire, e.after.wire)
  {
    if !l.result.Ok? then Effect(s, Lift(l.result))
    else if l.line[0] != PLUS then Effect(s, Err(Append))
    else
      var c := CollectFrom(p, s.tag, s.debug, [], s.wire);
      CollectConsumes(p, s.tag, s.debug, [], s.wire);
      Effect(ConnState(c.rest, s.written + content + CRLF, s.tag, s.debug), Discard(Reply(c)))
  }

  /** `append`: the APPEND line announcing a literal of the content's length,
      then one line, as `AppendAnswer` says. */
  function AppendSpec(p: Parser, s: ConnState, folder: Bytes, content: Bytes): (e: Effect)
    requires s.tag < TagLimit
    ensures e.after.tag == NextTag(s.tag) && e.after.debug == s.debug
    ensures Consumed(s.wire, e.after.wire)
  {
    var n := NextTag(s.tag);
    var l := ReadLine(s.wire, s.debug);
    var e := AppendAnswer(p, ConnState(l.rest, s.written + CommandLine(n, AppendCommand(folder, |content|)) + CRLF, n, s.debug), content, l);
    ConsumedTransitive(s.wire, l.rest, e.after.wire);
    e
  }

  lemma AppendAnswers(p: Parser, s: ConnState, folder: Bytes, content: Bytes, after: ConnState, l: LineRead)
    requires s.tag < TagLimit
    requires l == ReadLine(s.wire, s.debug)
    requires after == ConnState(l.rest, s.written + CommandLine(NextTag(s.tag), AppendCommand(folder, |content|)) + CRLF, NextTag(s.tag), s.debug)
    ensures AppendSpec(p, s, folder, content) == AppendAnswer(p, after, content, l)
  {
  }

  /** The content goes out only after the server asked for it: a first line
      that is not a continuation request fails the append with `Append`,
      with nothing written but the APPEND line. */
  lemma AppendWaitsForContinuation(p: Parser, s: ConnState, folder: Bytes, content: Bytes)
    requires s.tag < TagLimit
    ensures var l := ReadLine(s.wire, s.debug);
      AppendSpec(p, s, folder, content).outcome == Err(Append) <==> l.result.Ok? && l.line[0] != PLUS
    ensures var l := ReadLine(s.wire, s.debug);
      !(l.result.Ok? && l.line[0] == PLUS) ==>
        AppendSpec(p, s, folder, content).after.written == s.written + CommandLine(NextTag(s.tag), AppendCommand(folder, |content|)) + CRLF
  {
    var l := ReadLine(s.wire, s.debug);
    if l.result.Ok? && l.line[0] == PLUS {
      var c := CollectFrom(p, NextTag(s.tag), s.debug, [], l.rest);
      CollectErrors(p, NextTag(s.tag), s.debug, [], l.rest);
      assert AppendSpec(p, s, folder, content).outcome == Discard(Reply(c));
    }
  }

  /** After a continuation request the stream carries the APPEND line, the
      content and CR LF, in that order. */
  lemma AppendSendsContent(p: Parser, s: ConnState, folder: Bytes, content: Bytes)
    requires s.tag < TagLimit
    requires var l := ReadLine(s.wire, s.debug); l.result.Ok? && l.line[0] == PLUS
    ensures AppendSpec(p, s, folder, content).after.written
      == s.written + CommandLine(NextTag(s.tag), AppendCommand(folder, |content|)) + CRLF + content + CRLF
  {
  }

  // ------------------------------------------------------------------- IDLE

  /** `IdleHandle`'s connection and its `done` flag. */
  datatype IdleState = IdleState(conn: ConnState, done: bool)

  datatype IdleStep = IdleStep(after: IdleState, outcome: Outcome<()>)

  /** `Duration::from_secs(29 * 60)`, in seconds. */
  const DefaultKeepalive: nat := 29 * 60

  /** `terminate`: once only, the untagged `DONE` line and the response to
      the IDLE command, whose tag is still the current one. */
  function TerminateSpec(p: Parser, st: IdleState): (t: IdleStep)
    ensures t.after.done
    ensures t.after.conn.tag == st.conn.tag && t.after.conn.debug == st.conn.debug
    ensures Consumed(st.conn.wire, t.after.conn.wire)
    ensures st.done ==> t == IdleStep(st, Ok(()))
    ensures !st.done ==> t.after.conn.written == st.conn.written + Word("DONE") + CRLF
  {
    if st.done then IdleStep(st, Ok(()))
    else
      var c := CollectFrom(p, st.conn.tag, st.conn.debug, [], st.conn.wire);
      CollectConsumes(p, st.conn.tag, st.conn.debug, [], st.conn.wire);
      IdleStep(IdleState(ConnState(c.rest, st.conn.written + Word("DONE") + CRLF, st.conn.tag, st.conn.debug), true),
               Discard(Reply(c)))
  }

  /** The response to an IDLE command that was not accepted: it can only end
      in an error, since a tagged OK reaches `unreachable!()`. */
  function Rejected(p: Parser, n: nat, debug: bool, line: Bytes, w: Wire): (c: Collected)
    ensures Consumed(w, c.rest)
  {
    var c := CollectFrom(p, n, debug, line, w);
    CollectConsumes(p, n, debug, line, w);
    Collected(c.data, if c.outcome.Ok? then Panic(Unreachable) else c.outcome, c.rest, c.all, c.at)
  }

  /** What `init` does with the line that answers the IDLE command, `s` being
      the connection once that line is read: a continuation request starts
      idling; anything else is read as the command's response. */
  function IdleAnswer(p: Parser, s: ConnState, done: bool, l: LineRead): (t: IdleStep)
    requires l.result.Ok? ==> |l.line| > 0
    ensures t.after.conn.tag == s.tag && t.after.conn.debug == s.debug && t.after.conn.written == s.written
    ensures Consumed(s.wire, t.after.conn.wire)
    ensures t.outcome.Ok? ==> !t.after.done && t.after.conn.wire == s.wire
    ensures !t.outcome.Ok? ==> t.after.done == done
  {
    if !l.result.Ok? then IdleStep(IdleState(s, done), Lift(l.result))
    else if l.line[0] == PLUS then IdleStep(IdleState(s, false), Ok(()))
    else
      var c := Rejected(p, s.tag, s.debug, l.line, s.wire);
      IdleStep(IdleState(ConnState(c.rest, s.written, s.tag, s.debug), done), c.outcome)
  }

  /** `init`: the IDLE command, then one line, as `IdleAnswer` says. */
  function InitSpec(p: Parser, st: IdleState): (t: IdleStep)
    requires st.conn.tag < TagLimit
    ensures t.after.conn.tag == NextTag(st.conn.tag) && t.after.conn.debug == st.conn.debug
    ensures t.after.conn.written == st.conn.written + CommandLine(NextTag(st.conn.tag), Word("IDLE")) + CRLF
    ensures Consumed(st.conn.wire, t.after.conn.wire)
    ensures t.outcome.Ok? ==> !t.after.done && |t.after.conn.wire.incoming| < |st.conn.wire.incoming|
    ensures !t.outcome.Ok? ==> t.after.done == st.done
  {
    var n := NextTag(st.conn.tag);
    var l := ReadLine(st.conn.wire, st.conn.debug);
    var t := IdleAnswer(p, ConnState(l.rest, st.conn.written + CommandLine(n, Word("IDLE")) + CRLF, n, st.conn.debug), st.done, l);
    ConsumedTransitive(st.conn.wire, l.rest, t.after.conn.wire);
    t
  }

  lemma InitAnswers(p: Parser, st: IdleState, s: ConnState, l: LineRead)
    requires st.conn.tag < TagLimit
    requires l == ReadLine(st.conn.wire, st.conn.debug)
    requires s == ConnState(l.rest, st.conn.written + CommandLine(NextTag(st.conn.tag), Word("IDLE")) + CRLF, NextTag(st.conn.tag), st.conn.debug)
    ensures InitSpec(p, st) == IdleAnswer(p, s, st.done, l)
  {
  }

  /** A read that timed out, after which the IDLE is refreshed. */
  predicate TimedOutRead(o: Outcome<nat>) {
    o.Err? && o.error.Io? && (o.error.io.kind == TimedOut || o.error.io.kind == WouldBlock)
  }

  /** The refresh after a timed-out read: `terminate`, then `init`. */
  function Refresh(p: Parser, st: IdleState): (t: IdleStep)
    requires st.conn.tag < TagLimit
    ensures t.after.conn.tag < TagLimit && t.after.conn.debug == st.conn.debug
    ensures Consumed(st.conn.wire, t.after.conn.wire)
    ensures t.outcome.Ok? ==> |t.after.conn.wire.incoming| < |st.conn.wire.incoming|
  {
    var t := TerminateSpec(p, st);
    if !t.outcome.Ok? then t
    else
      var i := InitSpec(p, t.after);
      ConsumedTransitive(st.conn.wire, t.after.conn.wire, i.after.conn.wire);
      i
  }

  /** The state after the read `wait_inner` starts with. */
  function AfterRead(st: IdleState, l: LineRead): IdleState {
    IdleState(ConnState(l.rest, st.conn.written, st.conn.tag, st.conn.debug), st.done)
  }

  /** `wait_inner`: one line ends the wait; a timed-out read refreshes the
      IDLE and waits again. */
  function WaitSpec(p: Parser, st: IdleState): (t: IdleStep)
    requires st.conn.tag < TagLimit
    ensures t.after.conn.tag < TagLimit && t.after.conn.debug == st.conn.debug
    ensures Consumed(st.conn.wire, t.after.conn.wire)
    decreases |st.conn.wire.incoming|
  {
    var l := ReadLine(st.conn.wire, st.conn.debug);
    if TimedOutRead(l.result) then
      var r := Refresh(p, AfterRead(st, l));
      if !r.outcome.Ok? then r
      else
        ConsumedTransitive(st.conn.wire, l.rest, r.after.conn.wire);
        var w := WaitSpec(p, r.after);
        ConsumedTransitive(st.conn.wire, r.after.conn.wire, w.after.conn.wire);
        w
    else IdleStep(AfterRead(st, l), if l.result.Ok? then Ok(()) else Lift(l.result))
  }

  /** A second `terminate` does nothing: the first one set `done`. */
  lemma TerminateIdempotent(p: Parser, st: IdleState)
    ensures var t := TerminateSpec(p, st); TerminateSpec(p, t.after) == IdleStep(t.after, Ok(()))
  {
  }

  /** `DONE` goes out untagged, so the response `terminate` reads is matched
      against the tag of the IDLE command `init` sent. */
  lemma DoneAnswersIdle(p: Parser, st: IdleState)
    requires st.conn.tag < TagLimit
    requires InitSpec(p, st).outcome.Ok?
    ensures var i := InitSpec(p, st); var t := TerminateSpec(p, i.after);
      && t.after.conn.tag == NextTag(st.conn.tag)
      && t.after.conn.written == st.conn.written + CommandLine(NextTag(st.conn.tag), Word("IDLE")) + CRLF + Word("DONE") + CRLF
      && t == IdleStep(t.after, Discard(Reply(CollectFrom(p, NextTag(st.conn.tag), st.conn.debug, [], i.after.conn.wire))))
  {
  }

  /** A refresh of an active IDLE writes `DONE`, then a new IDLE command
      under the next tag. */
  lemma RefreshWrites(p: Parser, st: IdleState)
    requires st.conn.tag < TagLimit && !st.done
    requires TerminateSpec(p, st).outcome.Ok?
    ensures Refresh(p, st).after.conn.written
      == st.conn.written + Word("DONE") + CRLF + CommandLine(NextTag(st.conn.tag), Word("IDLE")) + CRLF
    ensures Refresh(p, st).after.conn.tag == NextTag(st.conn.tag)
  {
  }

  /** A read that times out while idling refreshes the IDLE and waits again;
      any other read ends the wait with its own outcome. */
  lemma TimeoutRefreshes(p: Parser, st: IdleState, e: IoError, more: seq<Arrival>, ending: Ending)
    requires st.conn.tag < TagLimit
    requires st.conn.wire == Wire([Stall(e)] + more, ending) && (e.kind == TimedOut || e.kind == WouldBlock)
    ensures var r := Refresh(p, IdleState(ConnState(Wire(more, ending), st.conn.written, st.conn.tag, st.conn.debug), st.done));
      WaitSpec(p, st) == if !r.outcome.Ok? then r else WaitSpec(p, r.after)
  {
    var l := ReadLine(st.conn.wire, st.conn.debug);
    assert st.conn.wire.incoming[0] == Stall(e);
    assert l.rest == Wire(more, ending) && l.result == Err(Io(e));
  }

  // ---------------------------------------------------------------- Session

  /** A `Session` owns the connection `login` or `authenticate` handed over. */
  class Session {
    const conn: Connection

    ghost predicate Valid()
      reads this, conn
    {
      conn.Valid()
    }

    constructor (conn: Connection)
      requires conn.Valid()
      ensures this.conn == conn && Valid()
    {
      this.conn := conn;
    }

    /** `run_command_and_read_response(&format!(...))` for a line whose
        `validate_str` may fail: the `?` returns before anything is written. */
    method Exchange(line: Outcome<Bytes>) returns (r: Outcome<Bytes>)
      requires Valid()
      modifies conn`tag, conn`written, conn`wire
      ensures Valid()
      ensures var t := Transact(conn.proto, old(conn.State()), line);
        conn.State() == t.after && r == t.reply
    {
      if !line.Ok? {
        return line;
      }
      r := conn.RunCommandAndReadResponse(line.value);
    }

    method Select(mailbox: Bytes) returns (r: Outcome<Mailbox>)
      requires Valid()
      modifies conn`tag, conn`written, conn`wire
      ensures Valid()
      ensures var t := Transact(conn.proto, old(conn.State()), Line("SELECT", [Checked(mailbox)]));
        conn.State() == t.after && r == MailboxReply(conn.proto, t.reply)
    {
      var lines := Exchange(Line("SELECT", [Checked(mailbox)]));
      if !lines.Ok? {
        return lines.PropagateFailure();
      }
      r := ParseMailbox(conn.proto, lines.value);
    }

    method Examine(mailbox: Bytes) returns (r: Outcome<Mailbox>)
      requires Valid()
      modifies conn`tag, conn`written, conn`wire
      ensures Valid()
      ensures var t := Transact(conn.proto, old(conn.State()), Line("EXAMINE", [Checked(mailbox)]));
        conn.State() == t.after && r == MailboxReply(conn.proto, t.reply)
    {
      var lines := Exchange(Line("EXAMINE", [Checked(mailbox)]));
      if !lines.Ok? {
        return lines.PropagateFailure();
      }
      r := ParseMailbox(conn.proto, lines.value);
    }

    method FetchMessages(sequenceSet: Bytes, query: Bytes) returns (r: Outcome<seq<Fetch>>)
      requires Valid()
      modifies conn`tag, conn`written, conn`wire
      ensures Valid()
      ensures var t := Transact(conn.proto, old(conn.State()), Line("FETCH", [Atom(sequenceSet), Atom(query)]));
        conn.State() == t.after && r == FetchesReply(conn.proto, t.reply)
    {
      var lines := Exchange(Line("FETCH", [Atom(sequenceSet), Atom(query)]));
      if !lines.Ok? {
        return lines.PropagateFailure();
      }
      r := ParseFetches(conn.proto, lines.value);
    }

    method UidFetch(uidSet: Bytes, query: Bytes) returns (r: Outcome<seq<Fetch>>)
      requires Valid()
      modifies conn`tag, conn`written, conn`wire
      ensures Valid()
      ensures var t := Transact(conn.proto, old(conn.State()), Line("UID FETCH", [Atom(uidSet), Atom(query)]));
        conn.State() == t.after && r == FetchesReply(conn.proto, t.reply)
    {
      var lines := Exchange(Line("UID FETCH", [Atom(uidSet), Atom(query)]));
      if !lines.Ok? {
        return lines.PropagateFailure();
      }
      r := ParseFetches(conn.proto, lines.value);
    }

    /** `run_command_and_check_ok` on a line that may have failed validation. */
    method CheckOk(line: Outcome<Bytes>) returns (r: Outcome<()>)
      requires Valid()
      modifies conn`tag, conn`written, conn`wire
      ensures Valid()
      ensures var t := Transact(conn.proto, old(conn.State()), line);
        conn.State() == t.after && r == Discard(t.reply)
    {
      var lines := Exchange(line);
      r := Discard(lines);
    }

    method Noop() returns (r: Outcome<()>)
      requires Valid()
      modifies conn`tag, conn`written, conn`wire
      ensures Valid()
      ensures var t := Transact(conn.proto, old(conn.State()), Line("NOOP", []));
        conn.State() == t.after && r == Discard(t.reply)
    {
      r := CheckOk(Line("NOOP", []));
    }

    method Logout() returns (r: Outcome<()>)
      requires Valid()
      modifies conn`tag, conn`written, conn`wire
      ensures Valid()
      ensures var t := Transact(conn.proto, old(conn.State()), Line("LOGOUT", []));
        conn.State() == t.after && r == Discard(t.reply)
    {
      r := CheckOk(Line("LOGOUT", []));
    }

    method Create(mailbox: Bytes) returns (r: Outcome<()>)
      requires Valid()
      modifies conn`tag, conn`written, conn`wire
      ensures Valid()
      ensures var t := Transact(conn.proto, old(conn.State()), Line("CREATE", [Checked(mailbox)]));
        conn.State() == t.after && r == Discard(t.reply)
    {
      r := CheckOk(Line("CREATE", [Checked(mailbox)]));
    }

    method Delete(mailbox: Bytes) returns (r: Outcome<()>)
      requires Valid()
      modifies conn`tag, conn`written, conn`wire
      ensures Valid()
      ensures var t := Transact(conn.proto, old(conn.State()), Line("DELETE", [Checked(mailbox)]));
        conn.State() == t.after && r == Discard(t.reply)
    {
      r := CheckOk(Line("DELETE", [Checked(mailbox)]));
    }

    method Rename(current: Bytes, target: Bytes) returns (r: Outcome<()>)
      requires Valid()
      modifies conn`tag, conn`written, conn`wire
      ensures Valid()
      ensures var t := Transact(conn.proto, old(conn.State()), Line("RENAME", [Quoted(current), Quoted(target)]));
        conn.State() == t.after && r == Discard(t.reply)
    {
      r := CheckOk(Line("RENAME", [Quoted(current), Quoted(target)]));
    }

    method Subscribe(mailbox: Bytes) returns (r: Outcome<()>)
      requires Valid()
      modifies conn`tag, conn`written, conn`wire
      ensures Valid()
      ensures var t := Transact(conn.proto, old(conn.State()), Line("SUBSCRIBE", [Quoted(mailbox)]));
        conn.State() == t.after && r == Discard(t.reply)
    {
      r := CheckOk(Line("SUBSCRIBE", [Quoted(mailbox)]));
    }

    method Unsubscribe(mailbox: Bytes) returns (r: Outcome<()>)
      requires Valid()
      modifies conn`tag, conn`written, conn`wire
      ensures Valid()
      ensures var t := Transact(conn.proto, old(conn.State()), Line("UNSUBSCRIBE", [Quoted(mailbox)]));
        conn.State() == t.after && r == Discard(t.reply)
    {
      r := CheckOk(Line("UNSUBSCRIBE", [Quoted(mailbox)]));
    }

    method Capabilities() returns (r: Outcome<seq<Bytes>>)
      requires Valid()
      modifies conn`tag, conn`written, conn`wire
      ensures Valid()
      ensures var t := Transact(conn.proto, old(conn.State()), Line("CAPABILITY", []));
        conn.State() == t.after && r == CapabilitiesReply(conn.proto, t.reply)
    {
      var lines := Exchange(Line("CAPABILITY", []));
      if !lines.Ok? {
        return lines.PropagateFailure();
      }
      r := ParseCapability(conn.proto, lines.value);
    }

    method Expunge() returns (r: Outcome<()>)
      requires Valid()
      modifies conn`tag, conn`written, conn`wire
      ensures Valid()
      ensures var t := Transact(conn.proto, old(conn.State()), Line("EXPUNGE", []));
        conn.State() == t.after && r == Discard(t.reply)
    {
      r := CheckOk(Line("EXPUNGE", []));
    }

    method UidExpunge(uidSet: Bytes) returns (r: Outcome<()>)
      requires Valid()
      modifies conn`tag, conn`written, conn`wire
      ensures Valid()
      ensures var t := Transact(conn.proto, old(conn.State()), Line("UID EXPUNGE", [Atom(uidSet)]));
        conn.State() == t.after && r == Discard(t.reply)
    {
      r := CheckOk(Line("UID EXPUNGE", [Atom(uidSet)]));
    }

    method Check() returns (r: Outcome<()>)
      requires Valid()
      modifies conn`tag, conn`written, conn`wire
      ensures Valid()
      ensures var t := Transact(conn.proto, old(conn.State()), Line("CHECK", []));
        conn.State() == t.after && r == Discard(t.reply)
    {
      r := CheckOk(Line("CHECK", []));
    }

    method Close() returns (r: Outcome<()>)
      requires Valid()
      modifies conn`tag, conn`written, conn`wire
      ensures Valid()
      ensures var t := Transact(conn.proto, old(conn.State()), Line("CLOSE", []));
        conn.State() == t.after && r == Discard(t.reply)
    {
      r := CheckOk(Line("CLOSE", []));
    }

    method Store(sequenceSet: Bytes, query: Bytes) returns (r: Outcome<seq<Fetch>>)
      requires Valid()
      modifies conn`tag, conn`written, conn`wire
      ensures Valid()
      ensures var t := Transact(conn.proto, old(conn.State()), Line("STORE", [Atom(sequenceSet), Atom(query)]));
        conn.State() == t.after && r == FetchesReply(conn.proto, t.reply)
    {
      var lines := Exchange(Line("STORE", [Atom(sequenceSet), Atom(query)]));
      if !lines.Ok? {
        return lines.PropagateFailure();
      }
      r := ParseFetches(conn.proto, lines.value);
    }

    method UidStore(uidSet: Bytes, query: Bytes) returns (r: Outcome<seq<Fetch>>)
      requires Valid()
      modifies conn`tag, conn`written, conn`wire
      ensures Valid()
      ensures var t := Transact(conn.proto, old(conn.State()), Line("UID STORE", [Atom(uidSet), Atom(query)]));
        conn.State() == t.after && r == FetchesReply(conn.proto, t.reply)
    {
      var lines := Exchange(Line("UID STORE", [Atom(uidSet), Atom(query)]));
      if !lines.Ok? {
        return lines.PropagateFailure();
      }
      r := ParseFetches(conn.proto, lines.value);
    }

    method Copy(sequenceSet: Bytes, mailbox: Bytes) returns (r: Outcome<()>)
      requires Valid()
      modifies conn`tag, conn`written, conn`wire
      ensures Valid()
      ensures var t := Transact(conn.proto, old(conn.State()), Line("COPY", [Atom(sequenceSet), Atom(mailbox)]));
        conn.State() == t.after && r == Discard(t.reply)
    {
      r := CheckOk(Line("COPY", [Atom(sequenceSet), Atom(mailbox)]));
    }

    method UidCopy(uidSet: Bytes, mailbox: Bytes) returns (r: Outcome<()>)
      requires Valid()
      modifies conn`tag, conn`written, conn`wire
      ensures Valid()
      ensures var t := Transact(conn.proto, old(conn.State()), Line("UID COPY", [Atom(uidSet), Atom(mailbox)]));
        conn.State() == t.after && r == Discard(t.reply)
    {
      r := CheckOk(Line("UID COPY", [Atom(uidSet), Atom(mailbox)]));
    }

    /** `mv`, the MOVE command of RFC 6851. */
    method Move(sequenceSet: Bytes, mailbox: Bytes) returns (r: Outcome<()>)
      requires Valid()
      modifies conn`tag, conn`written, conn`wire
      ensures Valid()
      ensures var t := Transact(conn.proto, old(conn.State()), Line("MOVE", [Atom(sequenceSet), Checked(mailbox)]));
        conn.State() == t.after && r == Discard(t.reply)
    {
      r := CheckOk(Line("MOVE", [Atom(sequenceSet), Checked(mailbox)]));
    }

    method UidMove(uidSet: Bytes, mailbox: Bytes) returns (r: Outcome<()>)
      requires Valid()
      modifies conn`tag, conn`written, conn`wire
      ensures Valid()
      ensures var t := Transact(conn.proto, old(conn.State()), Line("UID MOVE", [Atom(uidSet), Checked(mailbox)]));
        conn.State() == t.after && r == Discard(t.reply)
    {
      r := CheckOk(Line("UID MOVE", [Atom(uidSet), Checked(mailbox)]));
    }

    method List(reference: Bytes, pattern: Bytes) returns (r: Outcome<seq<Name>>)
      requires Valid()
      modifies conn`tag, conn`written, conn`wire
      ensures Valid()
      ensures var t := Transact(conn.proto, old(conn.State()), Line("LIST", [Quoted(reference), Atom(pattern)]));
        conn.State() == t.after && r == NamesReply(conn.proto, t.reply)
    {
      var lines := Exchange(Line("LIST", [Quoted(reference), Atom(pattern)]));
      if !lines.Ok? {
        return lines.PropagateFailure();
      }
      r := ParseNames(conn.proto, lines.value);
    }

    method Lsub(reference: Bytes, pattern: Bytes) returns (r: Outcome<seq<Name>>)
      requires Valid()
      modifies conn`tag, conn`written, conn`wire
      ensures Valid()
      ensures var t := Transact(conn.proto, old(conn.State()), Line("LSUB", [Quoted(reference), Atom(pattern)]));
        conn.State() == t.after && r == NamesReply(conn.proto, t.reply)
    {
      var lines := Exchange(Line("LSUB", [Quoted(reference), Atom(pattern)]));
      if !lines.Ok? {
        return lines.PropagateFailure();
      }
      r := ParseNames(conn.proto, lines.value);
    }

    method Status(mailbox: Bytes, items: Bytes) returns (r: Outcome<Mailbox>)
      requires Valid()
      modifies conn`tag, conn`written, conn`wire
      ensures Valid()
      ensures var t := Transact(conn.proto, old(conn.State()), Line("STATUS", [Checked(mailbox), Atom(items)]));
        conn.State() == t.after && r == MailboxReply(conn.proto, t.reply)
    {
      var lines := Exchange(Line("STATUS", [Checked(mailbox), Atom(items)]));
      if !lines.Ok? {
        return lines.PropagateFailure();
      }
      r := ParseMailbox(conn.proto, lines.value);
    }

    /** `search` and `uid_search`: the untagged lines, passed to a
        `parse_ids` that is not part of this model. */
    method Search(query: Bytes) returns (r: Outcome<Bytes>)
      requires Valid()
      modifies conn`tag, conn`written, conn`wire
      ensures Valid()
      ensures var t := Transact(conn.proto, old(conn.State()), Line("SEARCH", [Atom(query)]));
        conn.State() == t.after && r == t.reply
    {
      r := Exchange(Line("SEARCH", [Atom(query)]));
    }

    method UidSearch(query: Bytes) returns (r: Outcome<Bytes>)
      requires Valid()
      modifies conn`tag, conn`written, conn`wire
      ensures Valid()
      ensures var t := Transact(conn.proto, old(conn.State()), Line("UID SEARCH", [Atom(query)]));
        conn.State() == t.after && r == t.reply
    {
      r := Exchange(Line("UID SEARCH", [Atom(query)]));
    }

    method Append(folder: Bytes, content: Bytes) returns (r: Outcome<()>)
      requires Valid()
      modifies conn`tag, conn`written, conn`wire
      ensures Valid()
      ensures Effect(conn.State(), r) == AppendSpec(conn.proto, old(conn.State()), folder, content)
    {
      ghost var s := conn.State();
      var sent := conn.RunCommand(AppendCommand(folder, |content|));
      ghost var l := Transport.ReadLine(s.wire, s.debug);
      AppendAnswers(conn.proto, s, folder, content, ConnState(l.rest, conn.written, conn.tag, conn.debug), l);
      r := SendLiteral(content);
    }

    /** The part of `append` after the APPEND line: waits for the
        continuation request, then sends the literal and reads the response. */
    method SendLiteral(content: Bytes) returns (r: Outcome<()>)
      requires Valid()
      modifies conn`written, conn`wire
      ensures Valid()
      ensures var l := Transport.ReadLine(old(conn.wire), conn.debug);
        Effect(conn.State(), r) == AppendAnswer(conn.proto, ConnState(l.rest, old(conn.written), conn.tag, conn.debug), content, l)
    {
      var v, read := conn.ReadLine([]);
      if !read.Ok? {
        return Lift(read);
      }
      if v[0] != PLUS {
        return Err(Error.Append);
      }
      conn.WriteAll(content);
      conn.WriteAll(CRLF);
      var lines := conn.ReadResponse();
      r := Discard(lines);
    }

    /** `idle`: `IdleHandle::new`. When `init` fails, the handle is dropped
        on the way out, and dropping it runs `terminate`. */
    method Idle() returns (r: Outcome<()>, handle: IdleHandle?)
      requires Valid()
      modifies conn`tag, conn`written, conn`wire
      ensures Valid()
      ensures var i := InitSpec(conn.proto, IdleState(old(conn.State()), false));
        && r == i.outcome
        && (r.Ok? ==> handle != null && fresh(handle) && handle.session == this && handle.Valid()
                      && handle.State() == i.after && handle.keepalive == DefaultKeepalive)
        && (!r.Ok? ==> handle == null && conn.State() == TerminateSpec(conn.proto, i.after).after.conn)
    {
      var h := new IdleHandle(this);
      r := h.Init();
      if !r.Ok? {
        h.Drop();
        return r, null;
      }
      handle := h;
    }
  }

  // ------------------------------------------------------------ IdleHandle

  class IdleHandle {
    const session: Session
    var keepalive: nat
    var done: bool

    ghost predicate Valid()
      reads this, session, session.conn
    {
      session.Valid()
    }

    function State(): IdleState
      reads this, session, session.conn
    {
      IdleState(session.conn.State(), done)
    }

    constructor (session: Session)
      requires session.Valid()
      ensures this.session == session && keepalive == DefaultKeepalive && !done && Valid()
    {
      this.session := session;
      keepalive := DefaultKeepalive;
      done := false;
    }

    method Init() returns (r: Outcome<()>)
      requires Valid()
      modifies this`done, session.conn`tag, session.conn`written, session.conn`wire
      ensures Valid()
      ensures IdleStep(State(), r) == InitSpec(session.conn.proto, old(State()))
    {
      ghost var st := State();
      var sent := session.conn.RunCommand(Word("IDLE"));
      ghost var l := Transport.ReadLine(st.conn.wire, st.conn.debug);
      InitAnswers(session.conn.proto, st, ConnState(l.rest, session.conn.written, session.conn.tag, session.conn.debug), l);
      r := AwaitIdle();
    }

    /** The part of `init` after the IDLE line: a continuation request starts
        idling, and any other line is the start of the command's response. */
    method AwaitIdle() returns (r: Outcome<()>)
      requires Valid()
      modifies this`done, session.conn`wire
      ensures Valid()
      ensures var l := Transport.ReadLine(old(session.conn.wire), session.conn.debug);
        IdleStep(State(), r) == IdleAnswer(session.conn.proto, ConnState(l.rest, session.conn.written, session.conn.tag, session.conn.debug), old(done), l)
    {
      var conn := session.conn;
      var v, read := conn.ReadLine([]);
      if !read.Ok? {
        return Lift(read);
      }
      if v[0] == PLUS {
        done := false;
        return Ok(());
      }
      var data, o := conn.ReadResponseOnto(v);
      r := if o.Ok? then Panic(Unreachable) else o;
    }

    method Terminate() returns (r: Outcome<()>)
      requires Valid()
      modifies this`done, session.conn`written, session.conn`wire
      ensures Valid()
      ensures IdleStep(State(), r) == TerminateSpec(session.conn.proto, old(State()))
    {
      if !done {
        done := true;
        var w := session.conn.WriteLine(Word("DONE"));
        var lines := session.conn.ReadResponse();
        r := Discard(lines);
      } else {
        r := Ok(());
      }
    }

    method WaitInner() returns (r: Outcome<()>)
      requires Valid()
      modifies this`done, session.conn`tag, session.conn`written, session.conn`wire
      ensures Valid()
      ensures IdleStep(State(), r) == WaitSpec(session.conn.proto, old(State()))
      decreases |session.conn.wire.incoming|
    {
      ghost var st := State();
      var v, read := session.conn.ReadLine([]);
      if TimedOutRead(read) {
        ghost var before := State();
        var t := Terminate();
        if !t.Ok? {
          return t;
        }
        var i := Init();
        if !i.Ok? {
          return i;
        }
        assert |session.conn.wire.incoming| < |st.conn.wire.incoming|;
        r := WaitInner();
      } else {
        r := if read.Ok? then Ok(()) else Lift(read);
      }
    }

    /** The destructor: `terminate`, whose outcome is dropped. */
    method Drop()
      requires Valid()
      modifies this`done, session.conn`written, session.conn`wire
      ensures Valid()
      ensures State() == TerminateSpec(session.conn.proto, old(State())).after
    {
      var ignored := Terminate();
    }

    /** `wait`, which consumes the handle: the wait, then the drop. */
    method Wait() returns (r: Outcome<()>)
      requires Valid()
      modifies this`done, session.conn`tag, session.conn`written, session.conn`wire
      ensures Valid()
      ensures var t := WaitSpec(session.conn.proto, old(State()));
        State() == TerminateSpec(session.conn.proto, t.after).after && r == t.outcome
    {
      r := WaitInner();
      Drop();
    }

    method SetKeepalive(interval: nat)
      modifies this`keepalive
      ensures keepalive == interval
    {
      keepalive := interval;
    }

    /** `wait_timeout`: `setting` is what `set_read_timeout(Some(timeout))`
        returned and `clearing` what `set_read_timeout(None)` returns. A wait
        that returns then asks for the timeout to be cleared, whatever its
        result, and ignores whether that succeeded; a wait that panics unwinds
        past that call. The timeout stays set unless the clearing happened
        and succeeded. The handle is dropped at the end either way. */
    method WaitTimeout(timeout: nat, setting: Outcome<()>, clearing: Outcome<()>) returns (r: Outcome<()>)
      requires Valid()
      modifies this`done, session.conn`tag, session.conn`written, session.conn`wire, session.conn`readTimeout
      ensures Valid()
      ensures !setting.Ok? ==>
        r == setting && session.conn.readTimeout == old(session.conn.readTimeout)
        && State() == TerminateSpec(session.conn.proto, old(State())).after
      ensures setting.Ok? ==>
        session.conn.readTimeout == (if r.Panic? || !clearing.Ok? then Some(timeout) else None)
        && var t := WaitSpec(session.conn.proto, old(State()));
           State() == TerminateSpec(session.conn.proto, t.after).after && r == t.outcome
    {
      if !setting.Ok? {
        Drop();
        return setting;
      }
      session.conn.readTimeout := Some(timeout);
      r := WaitInner();
      if !r.Panic? && clearing.Ok? {
        session.conn.readTimeout := None;
      }
      Drop();
    }

    /** `wait_keepalive`: `wait_timeout` with the keep-alive interval. */
    method WaitKeepalive(setting: Outcome<()>, clearing: Outcome<()>) returns (r: Outcome<()>)
      requires Valid()
      modifies this`done, session.conn`tag, session.conn`written, session.conn`wire, session.conn`readTimeout
      ensures Valid()
      ensures !setting.Ok? ==>
        r == setting && session.conn.readTimeout == old(session.conn.readTimeout)
        && State() == TerminateSpec(session.conn.proto, old(State())).after
      ensures setting.Ok? ==>
        session.conn.readTimeout == (if r.Panic? || !clearing.Ok? then Some(old(keepalive)) else None)
        && var t := WaitSpec(session.conn.proto, old(State()));
           State() == TerminateSpec(session.conn.proto, t.after).after && r == t.outcome
    {
      r := WaitTimeout(keepalive, setting, clearing);
    }
  }
}
