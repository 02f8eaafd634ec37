/**
 * Command tags and the reading of one command's response (src/client.rs,
 * `Connection`): each command line goes out as `a<tag> <command>` CR LF, and
 * its response is every line the server sends up to the tagged status
 * response carrying the same tag (section 2.2.2 of RFC 3501).
 */
module Framing {
  import opened Base
  import opened Proto
  import opened Errors
  import opened Transport

  // ------------------------------------------------------------------ tags

  /** `TAG_PREFIX`, the letter `a`. */
  const TagPrefix: byte := 0x61

  /** The tag counter is a `u32`. */
  const TagLimit: nat := 0x1_0000_0000

  predicate IsDigit(b: byte) {
    0x30 <= b <= 0x39
  }

  predicate AllDigits(s: Bytes) {
    forall i | 0 <= i < |s| :: IsDigit(s[i])
  }

  /** The decimal rendering `format!("{}", n)`. */
  function Decimal(n: nat): Bytes {
    if n < 10 then [(0x30 + n) as byte] else Decimal(n / 10) + [(0x30 + n % 10) as byte]
  }

  /** The number a string of decimal digits denotes. */
  function DecimalValue(s: Bytes): nat
    requires AllDigits(s)
  {
    if s == [] then 0 else DecimalValue(s[..|s| - 1]) * 10 + (s[|s| - 1] - 0x30) as int
  }

  /** Rendering a number gives nonempty digits that read back as that number. */
  lemma {:induction false} DecimalRoundTrip(n: nat)
    ensures |Decimal(n)| > 0 && AllDigits(Decimal(n)) && DecimalValue(Decimal(n)) == n
    decreases n
  {
    if n >= 10 {
      DecimalRoundTrip(n / 10);
      var d := Decimal(n);
      assert d[..|d| - 1] == Decimal(n / 10);
    }
  }

  /** `format!("{}{}", TAG_PREFIX, self.tag)`, the tag a response must carry. */
  function MatchTag(n: nat): Bytes {
    [TagPrefix] + Decimal(n)
  }

  /** Different counter values give different tags. */
  lemma MatchTagInjective(n: nat, m: nat)
    requires MatchTag(n) == MatchTag(m)
    ensures n == m
  {
    DecimalRoundTrip(n);
    DecimalRoundTrip(m);
    assert Decimal(n) == MatchTag(n)[1..];
    assert Decimal(m) == MatchTag(m)[1..];
  }

  /** A tag holds no space, CR or LF, so it ends at the first space of its line. */
  lemma MatchTagIsAtom(n: nat)
    ensures |MatchTag(n)| >= 2 && MatchTag(n)[0] == TagPrefix
    ensures SP !in MatchTag(n) && CR !in MatchTag(n) && LF !in MatchTag(n)
  {
    DecimalRoundTrip(n);
    var t := MatchTag(n);
    forall i | 0 <= i < |t| ensures t[i] != SP && t[i] != CR && t[i] != LF {
      if i > 0 {
        assert t[i] == Decimal(n)[i - 1];
      }
    }
  }

  /** The counter after `self.tag += 1`, wrapping as a `u32` does in a release build. */
  function NextTag(n: nat): (m: nat)
    requires n < TagLimit
    ensures m < TagLimit
    ensures m == 0 <==> n == TagLimit - 1
    ensures m != 0 ==> m == n + 1
  {
    if n == TagLimit - 1 then 0 else n + 1
  }

  /** `create_command`'s result for a counter already advanced to `n`. */
  function CommandLine(n: nat, command: Bytes): Bytes {
    MatchTag(n) + [SP] + command
  }

  /** The command line starts with the tag and a space and ends with the
      command, so the tag can be read back from it. */
  lemma CommandLineSplits(n: nat, command: Bytes)
    ensures var l := CommandLine(n, command);
      && l[..|MatchTag(n)|] == MatchTag(n) && l[|MatchTag(n)|] == SP
      && l[|MatchTag(n)| + 1..] == command
      && FirstSpace(l) == |MatchTag(n)|
  {
    MatchTagIsAtom(n);
    var l := CommandLine(n, command);
    FirstSpaceAt(l, |MatchTag(n)|);
  }

  function FirstSpace(s: Bytes): (k: nat)
    ensures k <= |s|
  {
    if s == [] then 0 else if s[0] == SP then 0 else 1 + FirstSpace(s[1..])
  }

  lemma {:induction false} FirstSpaceAt(s: Bytes, k: nat)
    requires k < |s| && s[k] == SP && SP !in s[..k]
    ensures FirstSpace(s) == k
    decreases k
  {
    if k > 0 {
      assert s[0] == s[..k][0];
      assert s[1..][..k - 1] == s[1..k];
      assert SP !in s[1..k] by {
        assert forall b :: b in s[1..k] ==> b in s[..k];
      }
      FirstSpaceAt(s[1..], k - 1);
    }
  }

  // -------------------------------------------------------- read_response_onto

  /** The explanation used when a BAD or NO response carries no text. */
  const NoExplanation: Bytes := Ascii("no explanation given")

  /** What reading one response produced: the data buffer afterwards, the
      outcome, the rest of the wire, every octet the buffer held at the end
      of the search (`all`), and where the last line examined started (`at`). */
  datatype Collected = Collected(data: Bytes, outcome: Outcome<()>, rest: Wire, all: Bytes, at: nat)

  /** The outcome of a failed read, carried over unchanged. */
  function Lift(o: Outcome<nat>): (r: Outcome<()>)
    requires !o.Ok?
    ensures !r.Ok? && (o.Err? <==> r.Err?) && (o.Err? ==> r.error == o.error) && (o.Panic? ==> r.fault == o.fault)
  {
    if o.Err? then Err(o.error) else Panic(o.fault)
  }

  /** `parse_response` on `line` returned a tagged response. */
  predicate IsDone(o: ParseOutcome) {
    o.Parsed? && o.response.Done?
  }

  /** The last line examined is a tagged response with this tag and status. */
  predicate TaggedAt(p: Parser, c: Collected, tag: Bytes, status: Status)
    requires c.at <= |c.all|
  {
    var o := p(c.all[c.at..]);
    IsDone(o) && o.response.tag == tag && o.response.status == status
  }

  /** The text of the tagged response last examined, or the default explanation. */
  function TextAt(p: Parser, c: Collected): Bytes
    requires c.at <= |c.all| && IsDone(p(c.all[c.at..]))
  {
    p(c.all[c.at..]).response.information.GetOr(NoExplanation)
  }

  predicate ExplainsTerminator(p: Parser, matchTag: Bytes, c: Collected)
    requires c.at <= |c.all|
  {
    match c.outcome
    case Ok(_) => c.data == c.all[..c.at] && TaggedAt(p, c, matchTag, OK)
    case Err(BadResponse(text)) => c.data == c.all && TaggedAt(p, c, matchTag, BAD) && text == TextAt(p, c)
    case Err(NoResponse(text)) => c.data == c.all && TaggedAt(p, c, matchTag, NO) && text == TextAt(p, c)
    case Err(Parse(e)) =>
      && e == Invalid(c.all) && c.data == []
      && (p(c.all[c.at..]).Failed? || TaggedAt(p, c, matchTag, PREAUTH) || TaggedAt(p, c, matchTag, BYE))
    case Err(e) => c.data == c.all && (e.Io? || e == ConnectionLost)
    case Panic(TagMismatch(expected, got)) =>
      && expected == matchTag && c.data == c.all && got != matchTag
      && IsDone(p(c.all[c.at..])) && p(c.all[c.at..]).response.tag == got
    case Panic(f) => c.data == c.all && f == BadSlice
  }

  /** What each outcome of a response search says about the buffer: success
      returns everything before a tagged OK carrying `matchTag`; BAD and NO
      report that response's text; a wrong tag is a panic; a line that does
      not parse, or a tagged status other than OK, BAD and NO, gives back the
      whole buffer as `Invalid` and leaves `data` empty; anything else is a
      read that failed, and the buffer keeps whatever it had read. */
  predicate Explains(p: Parser, matchTag: Bytes, c: Collected) {
    c.at <= |c.all| && ExplainsTerminator(p, matchTag, c)
  }

  /** The buffer at the end holds the octets it started with and then
      every octet read from the wire. */
  predicate Appended(w: Wire, data: Bytes, c: Collected) {
    Consumed(w, c.rest) && c.all == data + Octets(w.incoming[..|w.incoming| - |c.rest.incoming|])
  }

  /** The loop's decision on a tagged response: the `assert_eq!` on its tag,
      then the status. */
  function Verdict(matchTag: Bytes, data: Bytes, from: nat, w: Wire, tag: Bytes, status: Status, information: Option<Bytes>): (c: Collected)
    requires from <= |data|
    ensures c.rest == w && c.all == data && c.at == from
  {
    if tag != matchTag then Collected(data, Panic(TagMismatch(matchTag, tag)), w, data, from)
    else if status == OK then Collected(data[..from], Ok(()), w, data, from)
    else if status == BAD then Collected(data, Err(BadResponse(information.GetOr(NoExplanation))), w, data, from)
    else if status == NO then Collected(data, Err(NoResponse(information.GetOr(NoExplanation))), w, data, from)
    else Collected([], Err(Parse(Invalid(data))), w, data, from)
  }

  /** One pass of the loop with `line_start` at `from`: parse what the buffer
      holds from there and decide whether to stop. */
  function Scan(p: Parser, matchTag: Bytes, debug: bool, data: Bytes, from: nat, w: Wire): Collected
    requires from <= |data|
    decreases |w.incoming|, 1
  {
    match p(data[from..])
    case Parsed(_, Done(tag, status, _, information)) => Verdict(matchTag, data, from, w, tag, status, information)
    case Parsed(_, _) => Next(p, matchTag, debug, data, None, w)
    case Incomplete => Next(p, matchTag, debug, data, Some(from), w)
    case Failed => Collected([], Err(Parse(Invalid(data))), w, data, from)
  }

  /** The `readline` at the top of the loop, then the pass over the buffer
      from `continue_from` if the last pass was incomplete, or else from the
      start of the new line. */
  function Next(p: Parser, matchTag: Bytes, debug: bool, data: Bytes, continueFrom: Option<nat>, w: Wire): Collected
    requires continueFrom.Some? ==> continueFrom.value <= |data|
    decreases |w.incoming|, 0
  {
    var l := ReadLine(w, debug);
    if !l.result.Ok? then Collected(data + l.line, Lift(l.result), l.rest, data + l.line, |data + l.line|)
    else Scan(p, matchTag, debug, data + l.line, continueFrom.GetOr(|data|), l.rest)
  }

  /** Every pass of the loop ends in a verdict that `Explains` describes, on
      a buffer that grew only by the octets read. */
  lemma {:induction false} ScanExplained(p: Parser, matchTag: Bytes, debug: bool, data: Bytes, from: nat, w: Wire)
    requires from <= |data|
    ensures var c := Scan(p, matchTag, debug, data, from, w); Appended(w, data, c) && Explains(p, matchTag, c)
    decreases |w.incoming|, 1
  {
    match p(data[from..])
    case Parsed(_, Done(_, _, _, _)) =>
      TerminatorExplained(p, matchTag, debug, data, from, w);
    case Parsed(_, _) =>
      assert Scan(p, matchTag, debug, data, from, w) == Next(p, matchTag, debug, data, None, w);
      NextExplained(p, matchTag, debug, data, None, w);
    case Incomplete =>
      assert Scan(p, matchTag, debug, data, from, w) == Next(p, matchTag, debug, data, Some(from), w);
      NextExplained(p, matchTag, debug, data, Some(from), w);
    case Failed =>
      assert w.incoming[..|w.incoming| - |w.incoming|] == [];
      var c := Collected([], Err(Parse(Invalid(data))), w, data, from);
      assert Scan(p, matchTag, debug, data, from, w) == c;
      assert ExplainsTerminator(p, matchTag, c);
  }

  lemma TerminatorExplained(p: Parser, matchTag: Bytes, debug: bool, data: Bytes, from: nat, w: Wire)
    requires from <= |data| && IsDone(p(data[from..]))
    ensures var c := Scan(p, matchTag, debug, data, from, w); Appended(w, data, c) && Explains(p, matchTag, c)
  {
    var r := p(data[from..]).response;
    assert Scan(p, matchTag, debug, data, from, w) == Verdict(matchTag, data, from, w, r.tag, r.status, r.information);
    VerdictExplained(p, matchTag, data, from, w);
  }

  lemma VerdictExplained(p: Parser, matchTag: Bytes, data: Bytes, from: nat, w: Wire)
    requires from <= |data| && IsDone(p(data[from..]))
    ensures var r := p(data[from..]).response;
      var c := Verdict(matchTag, data, from, w, r.tag, r.status, r.information);
      Appended(w, data, c) && Explains(p, matchTag, c)
  {
    var r := p(data[from..]).response;
    var c := Verdict(matchTag, data, from, w, r.tag, r.status, r.information);
    InPlace(w, data, c);
    if r.tag != matchTag {
      MismatchExplained(p, matchTag, data, from, w);
    } else if r.status == OK {
      OkExplained(p, matchTag, data, from, w);
    } else if r.status == BAD {
      BadExplained(p, matchTag, data, from, w);
    } else if r.status == NO {
      NoExplained(p, matchTag, data, from, w);
    } else {
      OtherStatusExplained(p, matchTag, data, from, w);
    }
  }

  /** A verdict reached without reading keeps the wire and the buffer. */
  lemma InPlace(w: Wire, data: Bytes, c: Collected)
    requires c.rest == w && c.all == data
    ensures Appended(w, data, c)
  {
    assert w.incoming[..|w.incoming| - |w.incoming|] == [];
  }

  lemma MismatchExplained(p: Parser, matchTag: Bytes, data: Bytes, from: nat, w: Wire)
    requires from <= |data| && IsDone(p(data[from..])) && p(data[from..]).response.tag != matchTag
    ensures Explains(p, matchTag, Collected(data, Panic(TagMismatch(matchTag, p(data[from..]).response.tag)), w, data, from))
  {
  }

  lemma OkExplained(p: Parser, matchTag: Bytes, data: Bytes, from: nat, w: Wire)
    requires from <= |data| && IsDone(p(data[from..]))
    requires p(data[from..]).response.tag == matchTag && p(data[from..]).response.status == OK
    ensures Explains(p, matchTag, Collected(data[..from], Ok(()), w, data, from))
  {
  }

  lemma BadExplained(p: Parser, matchTag: Bytes, data: Bytes, from: nat, w: Wire)
    requires from <= |data| && IsDone(p(data[from..]))
    requires p(data[from..]).response.tag == matchTag && p(data[from..]).response.status == BAD
    ensures Explains(p, matchTag, Collected(data, Err(BadResponse(p(data[from..]).response.information.GetOr(NoExplanation))), w, data, from))
  {
    var c := Collected(data, Err(BadResponse(p(data[from..]).response.information.GetOr(NoExplanation))), w, data, from);
    assert TaggedAt(p, c, matchTag, BAD);
    assert c.outcome.error.text == TextAt(p, c);
  }

  lemma NoExplained(p: Parser, matchTag: Bytes, data: Bytes, from: nat, w: Wire)
    requires from <= |data| && IsDone(p(data[from..]))
    requires p(data[from..]).response.tag == matchTag && p(data[from..]).response.status == NO
    ensures Explains(p, matchTag, Collected(data, Err(NoResponse(p(data[from..]).response.information.GetOr(NoExplanation))), w, data, from))
  {
    var c := Collected(data, Err(NoResponse(p(data[from..]).response.information.GetOr(NoExplanation))), w, data, from);
    assert TaggedAt(p, c, matchTag, NO);
    assert c.outcome.error.text == TextAt(p, c);
  }

  lemma OtherStatusExplained(p: Parser, matchTag: Bytes, data: Bytes, from: nat, w: Wire)
    requires from <= |data| && IsDone(p(data[from..]))
    requires p(data[from..]).response.tag == matchTag && p(data[from..]).response.status in {PREAUTH, BYE}
    ensures Explains(p, matchTag, Collected([], Err(Parse(Invalid(data))), w, data, from))
  {
  }

  lemma {:induction false} NextExplained(p: Parser, matchTag: Bytes, debug: bool, data: Bytes, continueFrom: Option<nat>, w: Wire)
    requires continueFrom.Some? ==> continueFrom.value <= |data|
    ensures var c := Next(p, matchTag, debug, data, continueFrom, w); Appended(w, data, c) && Explains(p, matchTag, c)
    decreases |w.incoming|, 0
  {
    var l := ReadLine(w, debug);
    var c := Next(p, matchTag, debug, data, continueFrom, w);
    if !l.result.Ok? {
      ReadFailureExplained(p, matchTag, c, l.result);
    } else {
      ScanExplained(p, matchTag, debug, data + l.line, continueFrom.GetOr(|data|), l.rest);
      AppendedThroughLine(w, data, l, c);
    }
  }

  lemma ReadFailureExplained(p: Parser, matchTag: Bytes, c: Collected, o: Outcome<nat>)
    requires !o.Ok? && (o.Err? ==> o.error.Io? || o.error == ConnectionLost) && (o.Panic? ==> o.fault == BadSlice)
    requires c.outcome == Lift(o) && c.data == c.all && c.at == |c.all|
    ensures Explains(p, matchTag, c)
  {
  }

  lemma AppendedThroughLine(w: Wire, data: Bytes, l: LineRead, c: Collected)
    requires Consumed(w, l.rest) && l.line == Octets(w.incoming[..|w.incoming| - |l.rest.incoming|])
    requires Appended(l.rest, data + l.line, c)
    ensures Appended(w, data, c)
  {
    var k1 := |w.incoming| - |l.rest.incoming|;
    var k2 := |l.rest.incoming| - |c.rest.incoming|;
    assert w.incoming[..k1 + k2] == w.incoming[..k1] + l.rest.incoming[..k2];
    OctetsAppend(w.incoming[..k1], l.rest.incoming[..k2]);
  }

  /** `read_response_onto(data)`: a nonempty buffer is examined before anything is read. */
  function CollectFrom(p: Parser, tag: nat, debug: bool, data: Bytes, w: Wire): Collected {
    if data != [] then Scan(p, MatchTag(tag), debug, data, 0, w) else Next(p, MatchTag(tag), debug, data, None, w)
  }

  /** What `read_response_onto` leaves behind, as `Explains` and `Appended` state it. */
  lemma CollectExplained(p: Parser, tag: nat, debug: bool, data: Bytes, w: Wire)
    ensures var c := CollectFrom(p, tag, debug, data, w); Appended(w, data, c) && Explains(p, MatchTag(tag), c)
  {
    if data != [] {
      ScanExplained(p, MatchTag(tag), debug, data, 0, w);
    } else {
      NextExplained(p, MatchTag(tag), debug, data, None, w);
    }
  }

  /** The search only reads the wire from its front. */
  lemma CollectConsumes(p: Parser, tag: nat, debug: bool, data: Bytes, w: Wire)
    ensures Consumed(w, CollectFrom(p, tag, debug, data, w).rest)
  {
    CollectExplained(p, tag, debug, data, w);
  }

  /** The search fails only with the errors `Explains` lists. */
  lemma CollectErrors(p: Parser, tag: nat, debug: bool, data: Bytes, w: Wire)
    ensures var o := CollectFrom(p, tag, debug, data, w).outcome;
      o.Err? ==> o.error.BadResponse? || o.error.NoResponse? || o.error.Parse? || o.error.Io? || o.error == ConnectionLost
  {
    CollectExplained(p, tag, debug, data, w);
  }

  /** A buffer that already holds the tagged OK line is answered without
      reading: the data before that line is returned and the wire is untouched. */
  lemma CollectKnownTerminator(p: Parser, tag: nat, debug: bool, data: Bytes, w: Wire, info: Option<Bytes>, code: Option<ResponseCode>, rest: Bytes)
    requires data != [] && p(data) == Parsed(rest, Done(MatchTag(tag), OK, code, info))
    ensures CollectFrom(p, tag, debug, data, w) == Collected([], Ok(()), w, data, 0)
  {
    assert data[0..] == data;
  }

  /** The `read_response` test of src/client.rs: a tagged OK as the only line
      yields an empty response. */
  lemma CollectSingleOk(p: Parser, line: Bytes, more: seq<Arrival>, ending: Ending, debug: bool, rest: Bytes,
                        code: Option<ResponseCode>, info: Option<Bytes>)
    requires |line| >= 2 && line[|line| - 1] == LF && LF !in line[..|line| - 1]
    requires p(line) == Parsed(rest, Done(MatchTag(0), OK, code, info))
    ensures var c := CollectFrom(p, 0, debug, [], Wire(OctetArrivals(line) + more, ending));
      c.data == [] && c.outcome == Ok(()) && c.rest == Wire(more, ending)
  {
    NextReadsOneLine(p, MatchTag(0), debug, [], None, line, more, ending);
    assert [] + line == line;
    CollectKnownTerminator(p, 0, debug, line, Wire(more, ending), info, code, rest);
  }

  /** The tagged OK line arrives after the untagged lines already in the buffer. */
  lemma CollectThroughTerminator(p: Parser, data: Bytes, done: Bytes, more: seq<Arrival>, ending: Ending, debug: bool,
                                 rest: Bytes, code: Option<ResponseCode>, info: Option<Bytes>)
    requires |done| >= 2 && done[|done| - 1] == LF && LF !in done[..|done| - 1]
    requires p(done) == Parsed(rest, Done(MatchTag(0), OK, code, info))
    ensures Next(p, MatchTag(0), debug, data, None, Wire(OctetArrivals(done) + more, ending))
         == Collected(data, Ok(()), Wire(more, ending), data + done, |data|)
  {
    var w := Wire(OctetArrivals(done) + more, ending);
    ReadLineOfLine(done, more, ending, debug);
    assert ReadLine(w, debug) == LineRead(done, Ok(|done|), Wire(more, ending));
    var all := data + done;
    assert all[|data|..] == done;
    assert all[..|data|] == data;
  }

  /** An incomplete parse is retried from the same line start once the next line has arrived. */
  lemma IncompleteRetriesSameStart(p: Parser, tag: Bytes, debug: bool, data: Bytes, from: nat, line: Bytes,
                                   more: seq<Arrival>, ending: Ending)
    requires from <= |data| && p(data[from..]) == Incomplete
    requires |line| >= 2 && line[|line| - 1] == LF && LF !in line[..|line| - 1]
    ensures Scan(p, tag, debug, data, from, Wire(OctetArrivals(line) + more, ending))
         == Scan(p, tag, debug, data + line, from, Wire(more, ending))
  {
    NextReadsOneLine(p, tag, debug, data, Some(from), line, more, ending);
  }

  /** With a complete line at the front of the wire, the top of the loop
      appends exactly that line and examines the buffer. */
  lemma NextReadsOneLine(p: Parser, tag: Bytes, debug: bool, data: Bytes, continueFrom: Option<nat>, line: Bytes,
                         more: seq<Arrival>, ending: Ending)
    requires continueFrom.Some? ==> continueFrom.value <= |data|
    requires |line| >= 2 && line[|line| - 1] == LF && LF !in line[..|line| - 1]
    ensures Next(p, tag, debug, data, continueFrom, Wire(OctetArrivals(line) + more, ending))
         == Scan(p, tag, debug, data + line, continueFrom.GetOr(|data|), Wire(more, ending))
  {
    ReadLineOfLine(line, more, ending, debug);
  }

  lemma ArrivalsOfLines(first: Bytes, second: Bytes, done: Bytes, more: seq<Arrival>)
    ensures OctetArrivals(first + second + done) + more
         == OctetArrivals(first) + (OctetArrivals(second) + (OctetArrivals(done) + more))
  {
    var a, b, d := OctetArrivals(first), OctetArrivals(second), OctetArrivals(done);
    assert OctetArrivals(first + second + done) == a + b + d by {
      OctetArrivalsAppend(first + second, done);
      OctetArrivalsAppend(first, second);
    }
    AppendAssociates(a + b, d, more);
    AppendAssociates(a, b, d + more);
  }

  /** The `fetch_body` test of src/client.rs: an untagged line whose literal
      continues on the next line is parsed again once that line has arrived,
      and the response is both lines. */
  lemma CollectLiteral(p: Parser, first: Bytes, second: Bytes, done: Bytes, more: seq<Arrival>, ending: Ending,
                       r1: Bytes, r2: Bytes, fetch: Response, code: Option<ResponseCode>, info: Option<Bytes>)
    requires |first| >= 2 && first[|first| - 1] == LF && LF !in first[..|first| - 1]
    requires |second| >= 2 && second[|second| - 1] == LF && LF !in second[..|second| - 1]
    requires |done| >= 2 && done[|done| - 1] == LF && LF !in done[..|done| - 1]
    requires p(first) == Incomplete
    requires p(first + second) == Parsed(r1, fetch) && !fetch.Done?
    requires p(done) == Parsed(r2, Done(MatchTag(0), OK, code, info))
    ensures var c := CollectFrom(p, 0, false, [], Wire(OctetArrivals(first + second + done) + more, ending));
      c.data == first + second && c.outcome == Ok(()) && c.rest == Wire(more, ending)
  {
    var w2 := Wire(OctetArrivals(second) + (OctetArrivals(done) + more), ending);
    var w3 := Wire(OctetArrivals(done) + more, ending);
    var tag := MatchTag(0);
    ArrivalsOfLines(first, second, done, more);
    NextReadsOneLine(p, tag, false, [], None, first, w2.incoming, ending);
    assert [] + first == first && first[0..] == first;
    IncompleteRetriesSameStart(p, tag, false, first, 0, second, w3.incoming, ending);
    var both := first + second;
    assert both[0..] == both;
    CollectThroughTerminator(p, both, done, more, ending, false, r2, code, info);
  }
}
