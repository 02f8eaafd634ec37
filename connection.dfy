/**
 * `Connection` of src/client.rs: the buffered stream, the tag counter and the
 * debug switch, with the primitives both handles use.
 */
module Connections {
  import opened Base
  import opened Proto
  import opened Errors
  import opened Transport
  import opened Framing

  /** The part of a connection its operations change. */
  datatype ConnState = ConnState(wire: Wire, written: Bytes, tag: nat, debug: bool)

  /** What one command exchange did: the connection afterwards and the reply. */
  datatype Transaction = Transaction(after: ConnState, reply: Outcome<Bytes>)

  /** What `read_response` returns for a finished search. */
  function Reply(c: Collected): (r: Outcome<Bytes>)
    ensures r.Ok? <==> c.outcome.Ok?
    ensures r.Ok? ==> r.value == c.data
    ensures r.Err? ==> c.outcome == Err(r.error)
    ensures r.Panic? ==> c.outcome == Panic(r.fault)
  {
    if c.outcome.Ok? then Ok(c.data) else c.outcome.PropagateFailure()
  }

  /** `run_command_and_read_response` on a command line that may have failed
      validation: a failed line sends nothing and leaves the counter alone;
      otherwise one tagged line goes out and the response to that tag is read. */
  function Transact(p: Parser, s: ConnState, command: Outcome<Bytes>): (t: Transaction)
    requires s.tag < TagLimit
    ensures t.after.tag < TagLimit && t.after.debug == s.debug
    ensures !command.Ok? ==> t.after == s && t.reply == command
    ensures command.Ok? ==>
      && t.after.tag == NextTag(s.tag)
      && t.after.written == s.written + CommandLine(t.after.tag, command.value) + CRLF
      && Consumed(s.wire, t.after.wire)
  {
    if !command.Ok? then Transaction(s, command)
    else
      var n := NextTag(s.tag);
      var c := CollectFrom(p, n, s.debug, [], s.wire);
      CollectConsumes(p, n, s.debug, [], s.wire);
      Transaction(ConnState(c.rest, s.written + CommandLine(n, command.value) + CRLF, n, s.debug), Reply(c))
  }

  /** A successful exchange answered with everything the server sent before
      the tagged OK that carries the new tag. */
  lemma TransactOk(p: Parser, s: ConnState, command: Bytes, lines: Bytes)
    requires s.tag < TagLimit
    requires Transact(p, s, Ok(command)).reply == Ok(lines)
    ensures var t := Transact(p, s, Ok(command));
      var c := CollectFrom(p, t.after.tag, s.debug, [], s.wire);
      && c.all == Octets(s.wire.incoming[..|s.wire.incoming| - |t.after.wire.incoming|])
      && c.at <= |c.all| && lines == c.all[..c.at]
      && IsDone(p(c.all[c.at..])) && p(c.all[c.at..]).response.tag == MatchTag(t.after.tag)
      && p(c.all[c.at..]).response.status == OK
  {
    var n := NextTag(s.tag);
    var c := CollectFrom(p, n, s.debug, [], s.wire);
    CollectExplained(p, n, s.debug, [], s.wire);
    assert [] + Octets(s.wire.incoming[..|s.wire.incoming| - |c.rest.incoming|]) == c.all;
  }

  class Connection {
    var wire: Wire
    var written: Bytes
    var tag: nat
    var debug: bool
    /** The read timeout last set on the stream (`SetReadTimeout`), in seconds. */
    var readTimeout: Option<nat>
    /** `imap_proto::parse_response`. */
    const proto: Parser

    ghost predicate Valid()
      reads this
    {
      tag < TagLimit && Progress(proto)
    }

    function State(): ConnState
      reads this
    {
      ConnState(wire, written, tag, debug)
    }

    /** The `Connection` that `Client::new` wraps around a stream: tag 0, debug off. */
    constructor (stream: Wire, proto: Parser)
      requires Progress(proto)
      ensures Valid() && State() == ConnState(stream, [], 0, false) && this.proto == proto && readTimeout == None
    {
      readTimeout := None;
      wire := stream;
      written := [];
      tag := 0;
      debug := false;
      this.proto := proto;
    }

    /** `readline`: appends the next line (or what arrived before a failing read) to `into`. */
    method ReadLine(into: Bytes) returns (into': Bytes, r: Outcome<nat>)
      modifies this`wire
      ensures var l := Transport.ReadLine(old(wire), debug);
        into' == into + l.line && r == l.result && wire == l.rest
    {
      var l := Transport.ReadLine(wire, debug);
      wire := l.rest;
      into' := into + l.line;
      r := l.result;
    }

    /** `create_command`: advances the counter, then prefixes the command with its tag. */
    method CreateCommand(command: Bytes) returns (line: Bytes)
      requires Valid()
      modifies this`tag
      ensures Valid() && tag == NextTag(old(tag)) && line == CommandLine(tag, command)
    {
      tag := NextTag(tag);
      line := MatchTag(tag) + [SP] + command;
    }

    /** `write_line`: the buffer, then CR LF, then a flush. */
    method WriteLine(buf: Bytes) returns (r: Outcome<()>)
      modifies this`written
      ensures written == old(written) + buf + CRLF && r == Ok(())
    {
      written := written + buf + CRLF;
      r := Ok(());
    }

    /** `write_all` on the buffered stream, which never fails here. */
    method WriteAll(buf: Bytes)
      modifies this`written
      ensures written == old(written) + buf
    {
      written := written + buf;
    }

    /** `read_response_onto`: reads lines onto `data0` until the tagged
        response for the current tag, as `CollectFrom` describes. */
    method ReadResponseOnto(data0: Bytes) returns (data: Bytes, r: Outcome<()>)
      modifies this`wire
      ensures var c := CollectFrom(proto, tag, debug, data0, old(wire));
        (data, r, wire) == (c.data, c.outcome, c.rest)
    {
      var continueFrom: Option<nat> := None;
      var tryFirst := data0 != [];
      var matchTag := MatchTag(tag);
      data := data0;
      ghost var goal := CollectFrom(proto, tag, debug, data0, wire);
      while true
        invariant continueFrom.Some? ==> continueFrom.value <= |data|
        invariant goal == CollectFrom(proto, tag, debug, data0, old(wire))
        invariant tryFirst ==> data != [] && continueFrom.None?
        invariant goal == if tryFirst then Scan(proto, matchTag, debug, data, 0, wire)
                          else Next(proto, matchTag, debug, data, continueFrom, wire)
        decreases |wire.incoming|, if tryFirst then 1 else 0
      {
        var lineStart: nat;
        if tryFirst {
          tryFirst := false;
          lineStart := 0;
        } else {
          var startNew := |data|;
          var read;
          data, read := ReadLine(data);
          if !read.Ok? {
            assert goal == Collected(data, Lift(read), wire, data, |data|);
            return data, Lift(read);
          }
          lineStart := continueFrom.GetOr(startNew);
          continueFrom := None;
        }
        match proto(data[lineStart..]) {
          case Parsed(_, Done(got, status, _, information)) =>
            // the `assert_eq!` on the tag, then the status (`Verdict`)
            var verdict := Verdict(matchTag, data, lineStart, wire, got, status, information);
            return verdict.data, verdict.outcome;
          case Parsed(_, _) =>
            assert goal == Next(proto, matchTag, debug, data, None, wire);
          case Incomplete =>
            assert goal == Next(proto, matchTag, debug, data, Some(lineStart), wire);
            continueFrom := Some(lineStart);
          case Failed =>
            return [], Err(Parse(Invalid(data)));
        }
      }
    }

    /** `read_response`: reads one response onto an empty buffer. */
    method ReadResponse() returns (r: Outcome<Bytes>)
      modifies this`wire
      ensures var c := CollectFrom(proto, tag, debug, [], old(wire));
        r == Reply(c) && wire == c.rest
    {
      var data, o := ReadResponseOnto([]);
      if o.Ok? {
        r := Ok(data);
      } else {
        r := o.PropagateFailure();
      }
    }

    /** `run_command`: a tagged command line. */
    method RunCommand(command: Bytes) returns (r: Outcome<()>)
      requires Valid()
      modifies this`tag, this`written
      ensures Valid() && tag == NextTag(old(tag))
      ensures written == old(written) + CommandLine(tag, command) + CRLF
      ensures r == Ok(())
    {
      var line := CreateCommand(command);
      r := WriteLine(line);
    }

    /** `run_command_and_read_response`. */
    method RunCommandAndReadResponse(command: Bytes) returns (r: Outcome<Bytes>)
      requires Valid()
      modifies this`tag, this`written, this`wire
      ensures Valid()
      ensures var t := Transact(proto, old(State()), Ok(command));
        State() == t.after && r == t.reply
    {
      var sent := RunCommand(command);
      r := ReadResponse();
    }

    /** `run_command_and_check_ok`: the same exchange, keeping only whether it succeeded. */
    method RunCommandAndCheckOk(command: Bytes) returns (r: Outcome<()>)
      requires Valid()
      modifies this`tag, this`written, this`wire
      ensures Valid()
      ensures var t := Transact(proto, old(State()), Ok(command));
        State() == t.after && r == Discard(t.reply)
    {
      var lines := RunCommandAndReadResponse(command);
      r := Discard(lines);
    }

    /** `read_greeting`: one line, whatever it says. */
    method ReadGreeting() returns (r: Outcome<()>)
      modifies this`wire
      ensures var l := Transport.ReadLine(old(wire), debug);
        wire == l.rest && (r.Ok? <==> l.result.Ok?) && (!r.Ok? ==> r == Lift(l.result))
    {
      var v, read := ReadLine([]);
      if read.Ok? {
        r := Ok(());
      } else {
        r := Lift(read);
      }
    }
  }

  /** `.map(|_| ())`. */
  function Discard<T>(o: Outcome<T>): (r: Outcome<()>)
    ensures r.Ok? <==> o.Ok?
    ensures !o.Ok? ==> r == o.PropagateFailure()
  {
    if o.Ok? then Ok(()) else o.PropagateFailure()
  }

  /** The `read_greeting` test of src/client.rs: any complete first line is accepted and consumed. */
  lemma GreetingAccepted(line: Bytes, more: seq<Arrival>, ending: Ending, debug: bool)
    requires |line| >= 2 && line[|line| - 1] == LF && LF !in line[..|line| - 1]
    ensures var l := Transport.ReadLine(Wire(OctetArrivals(line) + more, ending), debug);
      l.result.Ok? && l.rest == Wire(more, ending)
  {
    ReadLineOfLine(line, more, ending, debug);
  }
}
