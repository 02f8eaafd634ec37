/**
 * `Client` of src/client.rs: the connection before authentication, with
 * LOGIN and the AUTHENTICATE exchange of section 6.2.2 of RFC 3501. Every
 * failure hands the client back; success hands the connection to a `Session`.
 */
module Clients {
  import opened Base
  import opened Proto
  import opened Errors
  import opened Transport
  import opened Framing
  import opened Connections
  import opened Parse
  import opened Commands
  import opened Quoting
  import opened Sessions

  // ------------------------------------------------------------------ UTF-8

  predicate IsTrail(b: byte) {
    0x80 <= b <= 0xBF
  }

  /** The octets `String::from_utf8` accepts: well-formed UTF-8 as section 4
      of RFC 3629 defines it (no overlong forms, no surrogates, nothing past
      U+10FFFF). */
  predicate IsUtf8(s: Bytes)
    decreases |s|
  {
    if s == [] then true
    else
      var b := s[0];
      if b < 0x80 then IsUtf8(s[1..])
      else if 0xC2 <= b <= 0xDF then
        |s| >= 2 && IsTrail(s[1]) && IsUtf8(s[2..])
      else if 0xE0 <= b <= 0xEF then
        |s| >= 3 && IsTrail(s[2])
        && (if b == 0xE0 then 0xA0 <= s[1] <= 0xBF
            else if b == 0xED then 0x80 <= s[1] <= 0x9F
            else IsTrail(s[1]))
        && IsUtf8(s[3..])
      else if 0xF0 <= b <= 0xF4 then
        |s| >= 4 && IsTrail(s[2]) && IsTrail(s[3])
        && (if b == 0xF0 then 0x90 <= s[1] <= 0xBF
            else if b == 0xF4 then 0x80 <= s[1] <= 0x8F
            else IsTrail(s[1]))
        && IsUtf8(s[4..])
      else false
  }

  /** ASCII text is UTF-8. */
  lemma {:induction false} AsciiIsUtf8(s: Bytes)
    requires forall i | 0 <= i < |s| :: s[i] < 0x80
    ensures IsUtf8(s)
    decreases |s|
  {
    if s != [] {
      AsciiIsUtf8(s[1..]);
    }
  }

  /** A challenge line in ASCII never makes the `unwrap` of
      `String::from_utf8` panic. */
  lemma AsciiChallengeDoesNotPanic(line: Bytes, skip: nat)
    requires skip <= 1 && |line| > 0 && line[0] == PLUS
    requires forall i | 0 <= i < |line| :: line[i] < 0x80
    ensures !Challenge(line, skip).Panic?
    ensures Challenge(line, skip) == ParseAuthenticateResponse(line, skip)
  {
    AsciiIsUtf8(line);
  }

  // ------------------------------------------------------ the AUTHENTICATE loop

  /** One pass of the `do_auth_handshake` loop and whether it ended the loop. */
  datatype Turn = Turn(after: ConnState, done: bool, outcome: Outcome<()>)

  /** `parse_authenticate_response(String::from_utf8(line).unwrap())`: the
      text of a challenge line, a panic if the line is not UTF-8. */
  function Challenge(line: Bytes, skip: nat): (r: Outcome<Bytes>)
    requires skip <= 1 && |line| > 0 && line[0] == PLUS
    ensures r.Panic? <==> !IsUtf8(line)
    ensures r.Panic? ==> r.fault == NotUtf8
    ensures IsUtf8(line) ==> r == ParseAuthenticateResponse(line, skip)
  {
    if !IsUtf8(line) then Panic(NotUtf8) else ParseAuthenticateResponse(line, skip)
  }

  /** What one pass of `do_auth_handshake`'s loop does with the line it
      read, `s` being the connection once it is read: a line that starts with
      `+` is a challenge, answered with what the authenticator makes of its
      text and CR LF; the first other line starts the tagged response to
      AUTHENTICATE. `process` is `Authenticator::process`; `skip` is how many
      octets the pattern of `parse_authenticate_response` consumes before its
      capture. */
  function TurnAnswer(p: Parser, process: Bytes -> Bytes, skip: nat, s: ConnState, line: Bytes, read: Outcome<nat>): (t: Turn)
    requires skip <= 1 && (read.Ok? ==> |line| > 0)
    ensures t.after.tag == s.tag && t.after.debug == s.debug
    ensures Consumed(s.wire, t.after.wire) && s.written <= t.after.written
    ensures !t.done ==> t.outcome == Ok(()) && t.after.wire == s.wire
  {
    if !read.Ok? then Turn(s, true, Lift(read))
    else if line[0] == PLUS then
      var data := Challenge(line, skip);
      if !data.Ok? then Turn(s, true, data.PropagateFailure())
      else Turn(ConnState(s.wire, s.written + process(data.value) + CRLF, s.tag, s.debug), false, Ok(()))
    else
      var c := CollectFrom(p, s.tag, s.debug, line, s.wire);
      CollectConsumes(p, s.tag, s.debug, line, s.wire);
      Turn(ConnState(c.rest, s.written, s.tag, s.debug), true, c.outcome)
  }

  /** One pass of `do_auth_handshake`'s loop: a line, then its answer. */
  function HandshakeTurn(p: Parser, process: Bytes -> Bytes, skip: nat, s: ConnState): (t: Turn)
    requires skip <= 1
    ensures t.after.tag == s.tag && t.after.debug == s.debug
    ensures Consumed(s.wire, t.after.wire) && s.written <= t.after.written
    ensures !t.done ==> t.outcome == Ok(()) && |t.after.wire.incoming| < |s.wire.incoming|
  {
    var l := ReadLine(s.wire, s.debug);
    var t := TurnAnswer(p, process, skip, ConnState(l.rest, s.written, s.tag, s.debug), l.line, l.result);
    ConsumedTransitive(s.wire, l.rest, t.after.wire);
    t
  }

  lemma TurnAnswers(p: Parser, process: Bytes -> Bytes, skip: nat, s: ConnState, l: LineRead)
    requires skip <= 1 && l == ReadLine(s.wire, s.debug)
    ensures HandshakeTurn(p, process, skip, s) == TurnAnswer(p, process, skip, ConnState(l.rest, s.written, s.tag, s.debug), l.line, l.result)
  {
  }

  /** `do_auth_handshake`: passes of the loop until one ends it. */
  function Handshake(p: Parser, process: Bytes -> Bytes, skip: nat, s: ConnState): (e: Effect)
    requires skip <= 1
    ensures e.after.tag == s.tag && e.after.debug == s.debug
    ensures Consumed(s.wire, e.after.wire) && s.written <= e.after.written
    decreases |s.wire.incoming|
  {
    var t := HandshakeTurn(p, process, skip, s);
    if t.done then Effect(t.after, t.outcome)
    else
      var e := Handshake(p, process, skip, t.after);
      ConsumedTransitive(s.wire, t.after.wire, e.after.wire);
      e
  }

  /** A challenge line is answered with the authenticator's response and CR
      LF, and the exchange goes on with the next line. */
  lemma ChallengeAnswered(p: Parser, process: Bytes -> Bytes, skip: nat, s: ConnState, line: Bytes, more: seq<Arrival>, ending: Ending, data: Bytes)
    requires skip <= 1
    requires |line| >= 2 && line[|line| - 1] == LF && LF !in line[..|line| - 1]
    requires line[0] == PLUS && IsUtf8(line) && ParseAuthenticateResponse(line, skip) == Ok(data)
    requires s.wire == Wire(OctetArrivals(line) + more, ending)
    ensures Handshake(p, process, skip, s)
         == Handshake(p, process, skip, ConnState(Wire(more, ending), s.written + process(data) + CRLF, s.tag, s.debug))
  {
    ReadLineOfLine(line, more, ending, s.debug);
  }

  /** The first line that is not a challenge ends the loop: it and what
      follows are read as the tagged response, and nothing more is written. */
  lemma HandshakeEnds(p: Parser, process: Bytes -> Bytes, skip: nat, s: ConnState, line: Bytes, more: seq<Arrival>, ending: Ending)
    requires skip <= 1
    requires |line| >= 2 && line[|line| - 1] == LF && LF !in line[..|line| - 1] && line[0] != PLUS
    requires s.wire == Wire(OctetArrivals(line) + more, ending)
    ensures var c := CollectFrom(p, s.tag, s.debug, line, Wire(more, ending));
      Handshake(p, process, skip, s) == Effect(ConnState(c.rest, s.written, s.tag, s.debug), c.outcome)
  {
    ReadLineOfLine(line, more, ending, s.debug);
  }

  /** A challenge whose text is not a `+` line ended by CR LF fails the
      exchange with `Parse(Authentication(line))`, with nothing written. */
  lemma MalformedChallenge(p: Parser, process: Bytes -> Bytes, skip: nat, s: ConnState, line: Bytes, more: seq<Arrival>, ending: Ending)
    requires skip <= 1
    requires |line| >= 2 && line[|line| - 1] == LF && LF !in line[..|line| - 1]
    requires line[0] == PLUS && IsUtf8(line) && line[|line| - 2] != CR
    requires s.wire == Wire(OctetArrivals(line) + more, ending)
    ensures Handshake(p, process, skip, s)
         == Effect(ConnState(Wire(more, ending), s.written, s.tag, s.debug), Err(Parse(Authentication(line))))
  {
    ReadLineOfLine(line, more, ending, s.debug);
    AcceptedChallengeEndsInCRLF(line, skip);
  }

  /** On a complete line, `parse_authenticate_response` succeeds only if
      the line ends in CR LF. */
  lemma AcceptedChallengeEndsInCRLF(line: Bytes, skip: nat)
    requires skip <= 1
    requires |line| >= 2 && line[|line| - 1] == LF && LF !in line[..|line| - 1] && line[0] == PLUS
    ensures ParseAuthenticateResponse(line, skip).Ok? ==> line[|line| - 2] == CR
  {
    var d := ParseAuthenticateResponse(line, skip);
    if d.Ok? {
      var k := skip + |d.value|;
      var prefix := line[..skip] + d.value + CRLF;
      assert prefix[k] == CR && prefix[k + 1] == LF;
      assert line[k] == CR && line[k + 1] == LF;
    }
  }

  // ----------------------------------------------------------------- Client

  class Client {
    const conn: Connection

    ghost predicate Valid()
      reads this, conn
    {
      conn.Valid()
    }

    /** `Client::new`: a fresh connection over the stream, tag 0, debug off. */
    constructor (stream: Wire, proto: Parser)
      requires Progress(proto)
      ensures Valid() && fresh(conn)
      ensures conn.State() == ConnState(stream, [], 0, false) && conn.proto == proto
    {
      conn := new Connection(stream, proto);
    }

    /** `login`: both strings are checked, the username first, before
        anything is written; then LOGIN is sent and its response checked.
        A failure returns the error and leaves this client to the caller. */
    method Login(username: Bytes, password: Bytes) returns (r: Outcome<()>, session: Session?)
      requires Valid()
      modifies conn`tag, conn`written, conn`wire
      ensures Valid()
      ensures var t := Transact(conn.proto, old(conn.State()), Line("LOGIN", [Checked(username), Checked(password)]));
        conn.State() == t.after && r == Discard(t.reply)
      ensures r.Ok? ==> session != null && fresh(session) && session.conn == conn && session.Valid()
      ensures !r.Ok? ==> session == null
    {
      LoginLine(username, password);
      var u := ValidateStr(username);
      if !u.Ok? {
        return u.PropagateFailure(), null;
      }
      var p := ValidateStr(password);
      if !p.Ok? {
        return p.PropagateFailure(), null;
      }
      r := conn.RunCommandAndCheckOk(Word("LOGIN") + [SP] + u.value + [SP] + p.value);
      if !r.Ok? {
        return r, null;
      }
      session := new Session(conn);
    }

    /** `authenticate`: `AUTHENTICATE <auth_type>`, the type written as
        given, then the challenge loop. */
    method Authenticate(authType: Bytes, process: Bytes -> Bytes, skip: nat) returns (r: Outcome<()>, session: Session?)
      requires Valid() && skip <= 1
      modifies conn`tag, conn`written, conn`wire
      ensures Valid()
      ensures var s := old(conn.State()); var n := NextTag(s.tag);
        Effect(conn.State(), r) == Handshake(conn.proto, process, skip, ConnState(s.wire, s.written + CommandLine(n, Word("AUTHENTICATE") + [SP] + authType) + CRLF, n, s.debug))
      ensures r.Ok? ==> session != null && fresh(session) && session.conn == conn && session.Valid()
      ensures !r.Ok? ==> session == null
    {
      ghost var s := conn.State();
      var sent := conn.RunCommand(Word("AUTHENTICATE") + [SP] + authType);
      assert conn.State() == ConnState(s.wire, s.written + CommandLine(NextTag(s.tag), Word("AUTHENTICATE") + [SP] + authType) + CRLF, NextTag(s.tag), s.debug);
      r, session := DoAuthHandshake(process, skip);
    }

    /** `do_auth_handshake`: the `loop` of reads, one written answer per
        challenge, until the line that starts the tagged response. */
    method DoAuthHandshake(process: Bytes -> Bytes, skip: nat) returns (r: Outcome<()>, session: Session?)
      requires Valid() && skip <= 1
      modifies conn`written, conn`wire
      ensures Valid()
      ensures Effect(conn.State(), r) == Handshake(conn.proto, process, skip, old(conn.State()))
      ensures r.Ok? ==> session != null && fresh(session) && session.conn == conn && session.Valid()
      ensures !r.Ok? ==> session == null
    {
      ghost var goal := Handshake(conn.proto, process, skip, conn.State());
      var done := false;
      r := Ok(());
      while !done
        invariant Valid() && conn.tag == old(conn.tag) && conn.debug == old(conn.debug)
        invariant done ==> goal == Effect(conn.State(), r)
        invariant !done ==> goal == Handshake(conn.proto, process, skip, conn.State())
        decreases |conn.wire.incoming|, !done
      {
        done, r := Pass(process, skip);
      }
      if r.Ok? {
        session := new Session(conn);
      } else {
        session := null;
      }
    }

    /** The body of the loop of `do_auth_handshake`. */
    method Pass(process: Bytes -> Bytes, skip: nat) returns (done: bool, r: Outcome<()>)
      requires Valid() && skip <= 1
      modifies conn`written, conn`wire
      ensures Valid()
      ensures Turn(conn.State(), done, r) == HandshakeTurn(conn.proto, process, skip, old(conn.State()))
    {
      ghost var s := conn.State();
      ghost var l := Transport.ReadLine(s.wire, s.debug);
      var line, read := conn.ReadLine([]);
      assert line == l.line;
      TurnAnswers(conn.proto, process, skip, s, l);
      done, r := Answer(line, read, process, skip);
    }

    /** What a pass does with the line it read. */
    method Answer(line: Bytes, read: Outcome<nat>, process: Bytes -> Bytes, skip: nat) returns (done: bool, r: Outcome<()>)
      requires Valid() && skip <= 1 && (read.Ok? ==> |line| > 0)
      modifies conn`written, conn`wire
      ensures Valid()
      ensures Turn(conn.State(), done, r) == TurnAnswer(conn.proto, process, skip, old(conn.State()), line, read)
    {
      if !read.Ok? {
        return true, Lift(read);
      }
      if line[0] == PLUS {
        var data := Challenge(line, skip);
        if !data.Ok? {
          return true, data.PropagateFailure();
        }
        var w := conn.WriteLine(process(data.value));
        return false, Ok(());
      }
      var all, o := conn.ReadResponseOnto(line);
      return true, o;
    }
  }

  // ---------------------------------------------------------------- LOGIN

  /** The first command of a fresh client carries tag `a1`: a successful
      LOGIN writes exactly `a1 LOGIN "user" "pass"` and CR LF. */
  lemma FirstLoginWrites(p: Parser, w: Wire, username: Bytes, password: Bytes)
    requires Unbroken(username) && Unbroken(password)
    ensures var t := Transact(p, ConnState(w, [], 0, false), Line("LOGIN", [Checked(username), Checked(password)]));
      && t.after.tag == 1
      && t.after.written == [TagPrefix, 0x31, SP] + (Word("LOGIN") + [SP] + Quote(username) + [SP] + Quote(password)) + CRLF
  {
    LoginLine(username, password);
    var c := Word("LOGIN") + [SP] + Quote(username) + [SP] + Quote(password);
    var t := Transact(p, ConnState(w, [], 0, false), Ok(c));
    assert t.after.written == [] + CommandLine(1, c) + CRLF;
    assert CommandLine(1, c) == [TagPrefix, 0x31, SP] + c by {
      assert MatchTag(1) + [SP] == [TagPrefix, 0x31, SP];
    }
    assert [] + CommandLine(1, c) == CommandLine(1, c);
  }

  /** How a server reads a LOGIN line: the verb and a space, then two
      quoted strings separated by a space and nothing after them. */
  function ReadLogin(line: Bytes): Option<(Bytes, Bytes)> {
    var verb := Word("LOGIN") + [SP];
    if |line| < |verb| || line[..|verb|] != verb then None
    else
      var u := ReadQuoted(line[|verb|..]);
      if u.None? || u.value.1 == [] || u.value.1[0] != SP then None
      else
        var p := ReadQuoted(u.value.1[1..]);
        if p.None? || p.value.1 != [] then None
        else Some((u.value.0, p.value.0))
  }

  /** The LOGIN line that is sent reads back as exactly the username and the
      password, whatever spaces, backslashes or quotes they contain. */
  lemma LoginReadsBack(username: Bytes, password: Bytes)
    requires Unbroken(username) && Unbroken(password)
    ensures Line("LOGIN", [Checked(username), Checked(password)]).Ok?
    ensures ReadLogin(Line("LOGIN", [Checked(username), Checked(password)]).value) == Some((username, password))
  {
    LoginLine(username, password);
    var verb := Word("LOGIN") + [SP];
    var qp := Quote(password);
    var line := verb + (Quote(username) + ([SP] + qp));
    assert Line("LOGIN", [Checked(username), Checked(password)]).value == line;
    assert line[..|verb|] == verb && line[|verb|..] == Quote(username) + ([SP] + qp);
    QuoteSelfDelimiting(username, [SP] + qp);
    assert ([SP] + qp)[1..] == qp + [];
    QuoteSelfDelimiting(password, []);
  }

  /** A username or password holding CR or LF is refused before anything is
      written: the tag, the stream and the output are as they were. */
  lemma RefusedLoginSendsNothing(p: Parser, s: ConnState, username: Bytes, password: Bytes)
    requires s.tag < TagLimit
    requires !Unbroken(username) || !Unbroken(password)
    ensures var t := Transact(p, s, Line("LOGIN", [Checked(username), Checked(password)]));
      t.after == s && t.reply.Err? && t.reply.error.Validate?
  {
    LoginLine(username, password);
  }

  /** The `create_command` test of src/client.rs: commands are numbered one
      by one from a fresh client, `a1`, then `a2`. */
  lemma TagsCountUp()
    ensures MatchTag(NextTag(0)) == Ascii("a1")
    ensures MatchTag(NextTag(NextTag(0))) == Ascii("a2")
  {
  }
}
