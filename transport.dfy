/**
 * The byte stream a connection reads from, seen through its read buffer:
 * the octets the server will deliver, interleaved with reads that fail
 * (a read timeout, say), and what the stream does once they are exhausted.
 */
module Transport {
  import opened Base
  import opened Errors

  datatype Arrival = Octet(b: byte) | Stall(error: IoError)

  /** After the last arrival the stream either reports end of file (a read of
      zero bytes) or keeps failing with one error. */
  datatype Ending = Closed | Broken(error: IoError)

  datatype Wire = Wire(incoming: seq<Arrival>, ending: Ending)

  /** What `BufRead::read_until(LF, ..)` delivered: the octets appended, whether it
      ended normally (through LF or at end of file) or with an error, and the rest. */
  datatype UntilLF = UntilLF(line: Bytes, failure: Option<IoError>, rest: Wire)

  function Octets(xs: seq<Arrival>): Bytes {
    if xs == [] then [] else (if xs[0].Octet? then [xs[0].b] else []) + Octets(xs[1..])
  }

  /** `w'` is what remains of `w` after some arrivals were read from its front. */
  predicate Consumed(w: Wire, w': Wire) {
    w'.ending == w.ending && |w'.incoming| <= |w.incoming|
    && w'.incoming == w.incoming[|w.incoming| - |w'.incoming|..]
  }

  /** Reading from what remains is reading further into the original. */
  lemma ConsumedTransitive(w: Wire, w': Wire, w'': Wire)
    requires Consumed(w, w') && Consumed(w', w'')
    ensures Consumed(w, w'')
  {
    var a, b, c := w.incoming, w'.incoming, w''.incoming;
    assert c == a[|a| - |b|..][|b| - |c|..];
  }

  /** `read_until(LF)`: appends octets up to and including the first LF; stops
      early at end of file; a failing read ends it with that error, keeping the
      octets appended so far. */
  function ReadUntilLF(w: Wire): (r: UntilLF)
    decreases |w.incoming|
    ensures Consumed(w, r.rest)
    ensures |r.line| > 0 || r.failure.Some? ==> |r.rest.incoming| < |w.incoming| || w.incoming == []
  {
    if w.incoming == [] then
      match w.ending
      case Closed => UntilLF([], None, w)
      case Broken(e) => UntilLF([], Some(e), w)
    else
      var rest := Wire(w.incoming[1..], w.ending);
      match w.incoming[0]
      case Stall(e) => UntilLF([], Some(e), rest)
      case Octet(b) =>
        if b == LF then UntilLF([b], None, rest)
        else
          var r := ReadUntilLF(rest);
          UntilLF([b] + r.line, r.failure, r.rest)
  }

  /** The line `read_until` appends holds no LF except as its last octet, ends
      with LF unless the stream closed, is empty without error exactly when the
      stream had already closed, and is the octets of the arrivals it consumed. */
  lemma ReadUntilLFShape(w: Wire)
    ensures var r := ReadUntilLF(w);
      && (|r.line| > 0 ==> LF !in r.line[..|r.line| - 1])
      && (r.failure.None? && |r.line| > 0 && r.line[|r.line| - 1] != LF
          ==> r.rest.incoming == [] && w.ending == Closed)
      && (r.failure.None? && |r.line| == 0 <==> w.incoming == [] && w.ending == Closed)
      && r.line == Octets(w.incoming[..|w.incoming| - |r.rest.incoming|])
  {
    ReadUntilLFNoEarlyLF(w);
    ReadUntilLFEnds(w);
    ReadUntilLFOctets(w);
  }

  lemma {:induction false} ReadUntilLFNoEarlyLF(w: Wire)
    ensures var r := ReadUntilLF(w); |r.line| > 0 ==> LF !in r.line[..|r.line| - 1]
    decreases |w.incoming|
  {
    if w.incoming != [] && w.incoming[0].Octet? && w.incoming[0].b != LF {
      var rest := Wire(w.incoming[1..], w.ending);
      ReadUntilLFNoEarlyLF(rest);
      var r, r' := ReadUntilLF(w), ReadUntilLF(rest);
      assert r.line == [w.incoming[0].b] + r'.line;
      if |r'.line| > 0 {
        assert r.line[..|r.line| - 1] == [w.incoming[0].b] + r'.line[..|r'.line| - 1];
      } else {
        assert r.line[..|r.line| - 1] == [];
      }
    }
  }

  lemma {:induction false} ReadUntilLFEnds(w: Wire)
    ensures var r := ReadUntilLF(w);
      && (r.failure.None? && |r.line| > 0 && r.line[|r.line| - 1] != LF
          ==> r.rest.incoming == [] && w.ending == Closed)
      && (r.failure.None? && |r.line| == 0 <==> w.incoming == [] && w.ending == Closed)
    decreases |w.incoming|
  {
    if w.incoming != [] && w.incoming[0].Octet? && w.incoming[0].b != LF {
      var rest := Wire(w.incoming[1..], w.ending);
      ReadUntilLFEnds(rest);
      var r, r' := ReadUntilLF(w), ReadUntilLF(rest);
      assert r.line == [w.incoming[0].b] + r'.line;
      if |r'.line| > 0 {
        assert r.line[|r.line| - 1] == r'.line[|r'.line| - 1];
      }
    }
  }

  lemma {:induction false} ReadUntilLFOctets(w: Wire)
    ensures var r := ReadUntilLF(w); r.line == Octets(w.incoming[..|w.incoming| - |r.rest.incoming|])
    decreases |w.incoming|
  {
    var r := ReadUntilLF(w);
    if w.incoming != [] {
      var rest := Wire(w.incoming[1..], w.ending);
      var x := w.incoming[0];
      if x.Stall? || x.b == LF {
        assert w.incoming[..|w.incoming| - |r.rest.incoming|] == [x];
        assert Octets([x]) == (if x.Octet? then [x.b] else []) + Octets([]);
      } else {
        ReadUntilLFOctets(rest);
        var r' := ReadUntilLF(rest);
        var k := |w.incoming| - |r.rest.incoming|;
        assert r.line == [x.b] + r'.line && r.rest == r'.rest;
        assert w.incoming[..k] == [x] + rest.incoming[..k - 1];
        OctetsAppend([x], rest.incoming[..k - 1]);
        assert Octets([x]) == [x.b] + Octets([]);
      }
    }
  }

  lemma {:induction false} OctetsAppend(xs: seq<Arrival>, ys: seq<Arrival>)
    ensures Octets(xs + ys) == Octets(xs) + Octets(ys)
    decreases |xs|
  {
    if xs == [] {
      assert xs + ys == ys;
    } else {
      assert (xs + ys)[0] == xs[0];
      assert (xs + ys)[1..] == xs[1..] + ys;
      OctetsAppend(xs[1..], ys);
    }
  }

  /** The arrivals of a byte string delivered without any failing read. */
  function OctetArrivals(s: Bytes): (xs: seq<Arrival>)
    ensures |xs| == |s| && Octets(xs) == s
    ensures forall i | 0 <= i < |xs| :: xs[i].Octet?
  {
    if s == [] then [] else [Octet(s[0])] + OctetArrivals(s[1..])
  }

  lemma {:induction false} OctetArrivalsAppend(s: Bytes, t: Bytes)
    ensures OctetArrivals(s + t) == OctetArrivals(s) + OctetArrivals(t)
    decreases |s|
  {
    if s == [] {
      assert s + t == t;
    } else {
      assert (s + t)[0] == s[0];
      assert (s + t)[1..] == s[1..] + t;
      OctetArrivalsAppend(s[1..], t);
    }
  }

  /** A line that ends with its first LF is read in one call, whatever follows it. */
  lemma {:induction false} ReadUntilLFTakesOneLine(line: Bytes, more: seq<Arrival>, ending: Ending)
    requires |line| > 0 && line[|line| - 1] == LF && LF !in line[..|line| - 1]
    ensures ReadUntilLF(Wire(OctetArrivals(line) + more, ending)) == UntilLF(line, None, Wire(more, ending))
    decreases |line|
  {
    var w := Wire(OctetArrivals(line) + more, ending);
    assert w.incoming[0] == Octet(line[0]);
    if |line| == 1 {
      assert w.incoming[1..] == more;
    } else {
      assert line[0] != LF by {
        assert line[0] == line[..|line| - 1][0];
      }
      var tail := line[1..];
      assert tail[..|tail| - 1] == line[1..|line| - 1];
      assert w.incoming[1..] == OctetArrivals(tail) + more by {
        assert OctetArrivals(line) == [Octet(line[0])] + OctetArrivals(tail);
        AppendAssociates([Octet(line[0])], OctetArrivals(tail), more);
      }
      ReadUntilLFTakesOneLine(tail, more, ending);
      assert [line[0]] + tail == line;
    }
  }

  /** What `Connection::readline` yields: the appended octets, the count or the
      error, and the rest of the wire. */
  datatype LineRead = LineRead(line: Bytes, result: Outcome<nat>, rest: Wire)

  /** `Connection::readline`: an I/O error becomes `Io`; zero octets read becomes
      `ConnectionLost`; otherwise the count of octets appended. With `debug`
      set, the line is sliced to drop its CR LF before it is printed, and a
      single octet makes that slice end before it starts. */
  function ReadLine(w: Wire, debug: bool): (r: LineRead)
    ensures r.result.Panic? ==> r.result == Panic(BadSlice) && debug && |r.line| == 1
    ensures debug && |r.line| == 1 && !r.result.Err? ==> r.result == Panic(BadSlice)
    ensures r.result == Err(ConnectionLost) <==> w.incoming == [] && w.ending == Closed
    ensures r.result.Err? ==> r.result.error.Io? || r.result.error == ConnectionLost
    ensures r.result.Ok? ==> r.result.value == |r.line| > 0 && |r.rest.incoming| < |w.incoming|
    ensures r.result.Ok? ==> LF !in r.line[..|r.line| - 1]
    ensures r.result.Ok? && r.line[|r.line| - 1] != LF ==> r.rest.incoming == [] && w.ending == Closed
    ensures Consumed(w, r.rest) && r.line == Octets(w.incoming[..|w.incoming| - |r.rest.incoming|])
  {
    ReadUntilLFShape(w);
    var u := ReadUntilLF(w);
    var result: Outcome<nat> :=
      if u.failure.Some? then Err(Io(u.failure.value))
      else if |u.line| == 0 then Err(ConnectionLost)
      else if debug && |u.line| < 2 then Panic(BadSlice)
      else Ok(|u.line|);
    LineRead(u.line, result, u.rest)
  }

  /** A complete line at the front of the wire is what `readline` returns. */
  lemma ReadLineOfLine(line: Bytes, more: seq<Arrival>, ending: Ending, debug: bool)
    requires |line| >= 2 && line[|line| - 1] == LF && LF !in line[..|line| - 1]
    ensures ReadLine(Wire(OctetArrivals(line) + more, ending), debug) == LineRead(line, Ok(|line|), Wire(more, ending))
  {
    ReadUntilLFTakesOneLine(line, more, ending);
  }
}
