/**
 * The folds of src/parse.rs: each walks the responses the parser finds in the
 * untagged bytes of one command and builds the command's result.
 *
 * Each loop is specified against a declarative reading of the buffer:
 * `Tokenize` cuts it into the responses the parser returns, then the result
 * is decided by the first response the fold does not accept, or by where the
 * parser got stuck, or else by mapping every response.
 */
module Parse {
  import opened Base
  import opened Proto
  import opened Errors
  import opened Types

  // ---------------------------------------------------------------- sequences

  /** What a fold's mapper does with one response: keep a value, or decline it. */
  datatype MapOrNot<T> = Map(value: T) | Not(response: Response)

  function FoldLeft<A, B>(f: (A, B) -> A, a: A, xs: seq<B>): A {
    if xs == [] then a else FoldLeft(f, f(a, xs[0]), xs[1..])
  }

  /** Folding over one more element is one more step. */
  lemma {:induction false} FoldLeftSnoc<A, B>(f: (A, B) -> A, a: A, xs: seq<B>, x: B)
    ensures FoldLeft(f, a, xs + [x]) == f(FoldLeft(f, a, xs), x)
    decreases |xs|
  {
    if xs == [] {
      assert [x][1..] == [];
    } else {
      assert (xs + [x])[1..] == xs[1..] + [x];
      FoldLeftSnoc(f, f(a, xs[0]), xs[1..], x);
    }
  }

  /** The value picked from the LAST element that has one. */
  function LastOf<B, T>(xs: seq<B>, pick: B -> Option<T>): Option<T> {
    if xs == [] then None
    else if pick(xs[|xs| - 1]).Some? then pick(xs[|xs| - 1])
    else LastOf(xs[..|xs| - 1], pick)
  }

  /** The in-order concatenation of what is picked from each element. */
  function ConcatOf<B>(xs: seq<B>, pick: B -> seq<Bytes>): seq<Bytes> {
    if xs == [] then [] else ConcatOf(xs[..|xs| - 1], pick) + pick(xs[|xs| - 1])
  }

  /** The index of the first element that stops a fold, or the length. */
  function FirstWhere(rs: seq<Response>, stop: Response -> bool): (k: nat)
    ensures k <= |rs|
    ensures forall i | 0 <= i < k :: !stop(rs[i])
    ensures k < |rs| ==> stop(rs[k])
  {
    if rs == [] then 0 else if stop(rs[0]) then 0 else 1 + FirstWhere(rs[1..], stop)
  }

  /** The index of the first response the mapper declines, or the length. */
  function FirstDeclined<T>(rs: seq<Response>, mapper: Response -> MapOrNot<T>): (k: nat)
    ensures k <= |rs|
    ensures forall i | 0 <= i < k :: mapper(rs[i]).Map?
    ensures k < |rs| ==> mapper(rs[k]).Not?
  {
    if rs == [] then 0 else if mapper(rs[0]).Not? then 0 else 1 + FirstDeclined(rs[1..], mapper)
  }

  // ------------------------------------------------------------ tokenization

  /** The responses the parser finds in `lines` one after another, until the
      input is used up (`stuck` is None) or the parser does not return a
      response (`stuck` holds the input left at that point). */
  datatype Tokens = Tokens(responses: seq<Response>, stuck: Option<Bytes>)

  function Tokenize(p: Parser, lines: Bytes): (t: Tokens)
    requires Progress(p)
    decreases |lines|
  {
    match p(lines)
    case Parsed(rest, r) =>
      if rest == [] then Tokens([r], None)
      else
        var t := Tokenize(p, rest);
        Tokens([r] + t.responses, t.stuck)
    case _ => Tokens([], Some(lines))
  }

  /** Nothing to parse is a parse failure: the folds never accept an empty buffer. */
  lemma TokenizeEmpty(p: Parser)
    requires Progress(p)
    ensures Tokenize(p, []) == Tokens([], Some([]))
  {
    assert !p([]).Parsed?;
  }

  // ------------------------------------------------------- parse_authenticate_response

  function FirstLF(s: Bytes): (i: Option<nat>)
    ensures i.Some? ==> i.value < |s| && s[i.value] == LF && LF !in s[..i.value]
    ensures i.None? ==> LF !in s
  {
    if s == [] then None
    else if s[0] == LF then Some(0)
    else
      var j := FirstLF(s[1..]);
      if j.Some? then
        assert s[..j.value + 1] == [s[0]] + s[1..][..j.value];
        Some(j.value + 1)
      else None
  }

  /** `parse_authenticate_response`: the text the pattern `^+(.*)\r\n` captures,
      which is everything between the `skip` octets the pattern consumes at the
      start and the CR LF that ends the line. Whether the leading `+` is
      consumed (`skip` 1) or captured (`skip` 0) depends on how the regex crate
      reads `^+`; the model leaves that open. */
  function ParseAuthenticateResponse(line: Bytes, skip: nat): (r: Outcome<Bytes>)
    requires skip <= 1 && |line| > 0 && line[0] == PLUS
    ensures !r.Panic?
    ensures r.Err? ==> r.error == Parse(Authentication(line))
    ensures r.Ok? ==> line[..skip] + r.value + CRLF <= line && LF !in r.value
  {
    var i := FirstLF(line);
    if i.Some? && i.value >= skip + 1 && line[i.value - 1] == CR then
      var v := line[skip..i.value - 1];
      assert line[..skip] + v + CRLF == line[..i.value + 1];
      assert v == line[..i.value][skip..i.value - 1];
      Ok(v)
    else
      Err(Parse(Authentication(line)))
  }

  /** The converse: a line of the form marker, text, CR LF (the text free of
      LF) yields exactly that text. */
  lemma AuthenticateResponseCaptures(line: Bytes, skip: nat, v: Bytes, tail: Bytes)
    requires skip <= 1 && |line| > 0 && line[0] == PLUS
    requires line == line[..skip] + v + CRLF + tail && LF !in v
    ensures ParseAuthenticateResponse(line, skip) == Ok(v)
  {
    var k := skip + |v|;
    assert line[k] == CR && line[k + 1] == LF;
    assert line[..k + 1] == line[..skip] + v + [CR];
    assert LF !in line[..skip];
    assert LF !in line[..k + 1];
    assert FirstLF(line).value == k + 1;
    assert line[skip..k] == v;
  }

  // ---------------------------------------------------------------- parse_many

  function MapAll<T>(rs: seq<Response>, mapper: Response -> MapOrNot<T>): (xs: seq<T>)
    requires forall i | 0 <= i < |rs| :: mapper(rs[i]).Map?
    ensures |xs| == |rs| && forall i | 0 <= i < |rs| :: xs[i] == mapper(rs[i]).value
  {
    if rs == [] then [] else [mapper(rs[0]).value] + MapAll(rs[1..], mapper)
  }

  /** What `parse_many` returns when `acc` has already been collected. */
  function ManySpec<T>(p: Parser, lines: Bytes, mapper: Response -> MapOrNot<T>, acc: seq<T>): Outcome<seq<T>>
    requires Progress(p)
  {
    var t := Tokenize(p, lines);
    var k := FirstDeclined(t.responses, mapper);
    if k < |t.responses| then Err(Parse(Unexpected(mapper(t.responses[k]).response)))
    else if t.stuck.Some? then Err(Parse(Invalid(t.stuck.value)))
    else Ok(acc + MapAll(t.responses, mapper))
  }

  lemma ManyStep<T>(p: Parser, lines: Bytes, mapper: Response -> MapOrNot<T>, acc: seq<T>)
    requires Progress(p) && p(lines).Parsed? && p(lines).rest != []
    requires mapper(p(lines).response).Map?
    ensures ManySpec(p, lines, mapper, acc) == ManySpec(p, p(lines).rest, mapper, acc + [mapper(p(lines).response).value])
  {
    var r := p(lines).response;
    var t := Tokenize(p, p(lines).rest);
    var all := Tokenize(p, lines).responses;
    assert all == [r] + t.responses && Tokenize(p, lines).stuck == t.stuck;
    assert all[1..] == t.responses;
    var k := FirstDeclined(all, mapper);
    assert k == 1 + FirstDeclined(t.responses, mapper);
    if k < |all| {
      assert all[k] == t.responses[k - 1];
    } else {
      assert MapAll(all, mapper) == [mapper(r).value] + MapAll(t.responses, mapper) by {
        assert all[0] == r;
      }
      AppendAssociates(acc, [mapper(r).value], MapAll(t.responses, mapper));
    }
  }

  /** `parse_many`: maps each parsed response in order, stops at the first one
      the mapper declines, and fails with the remaining bytes as soon as the
      parser does not return a response. */
  method ParseMany<T>(p: Parser, lines0: Bytes, mapper: Response -> MapOrNot<T>) returns (r: Outcome<seq<T>>)
    requires Progress(p)
    ensures r == ManySpec(p, lines0, mapper, [])
  {
    var things: seq<T> := [];
    var lines := lines0;
    while true
      invariant ManySpec(p, lines, mapper, things) == ManySpec(p, lines0, mapper, [])
      decreases |lines|
    {
      match p(lines)
      case Parsed(rest, resp) =>
        match mapper(resp) {
          case Map(t) =>
            if rest == [] {
              assert Tokenize(p, lines) == Tokens([resp], None);
              assert FirstDeclined([resp], mapper) == 1;
              assert MapAll([resp], mapper) == [t];
              return Ok(things + [t]);
            }
            ManyStep(p, lines, mapper, things);
            lines := rest;
            things := things + [t];
          case Not(declined) =>
            return Err(Parse(Unexpected(declined)));
        }
      case _ =>
        return Err(Parse(Invalid(lines)));
    }
  }

  /** The meaning of a successful `parse_many`: every response in the buffer
      was mapped, one result per response, in order. */
  lemma ManyOk<T>(p: Parser, lines: Bytes, mapper: Response -> MapOrNot<T>, xs: seq<T>)
    requires Progress(p) && ManySpec(p, lines, mapper, []) == Ok(xs)
    ensures var rs := Tokenize(p, lines).responses;
      && Tokenize(p, lines).stuck.None?
      && |xs| == |rs| > 0
      && forall i | 0 <= i < |rs| :: mapper(rs[i]) == Map(xs[i])
  {
  }

  // ------------------------------------------------------------- parse_names

  function NameMapper(r: Response): MapOrNot<Name> {
    match r
    case MailboxData(List(attrs, delim, name)) => Map(Name(attrs, delim, name))
    case _ => Not(r)
  }

  /** `parse_names`: one `Name` per LIST datum, attributes in order; any other
      response is an error. */
  method ParseNames(p: Parser, lines: Bytes) returns (r: Outcome<seq<Name>>)
    requires Progress(p)
    ensures r == ManySpec(p, lines, NameMapper, [])
  {
    r := ParseMany(p, lines, NameMapper);
  }

  lemma NamesOk(p: Parser, lines: Bytes, names: seq<Name>)
    requires Progress(p) && ManySpec(p, lines, NameMapper, []) == Ok(names)
    ensures var rs := Tokenize(p, lines).responses;
      |names| == |rs| &&
      forall i | 0 <= i < |rs| ::
        rs[i] == MailboxData(List(names[i].attributes, names[i].delimiter, names[i].name))
  {
    ManyOk(p, lines, NameMapper, names);
    var rs := Tokenize(p, lines).responses;
    forall i | 0 <= i < |rs|
      ensures rs[i] == MailboxData(List(names[i].attributes, names[i].delimiter, names[i].name))
    {
      NameMapped(rs[i], names[i]);
    }
  }

  lemma NameMapped(r: Response, n: Name)
    requires NameMapper(r) == Map(n)
    ensures r == MailboxData(List(n.attributes, n.delimiter, n.name))
  {
  }

  // ----------------------------------------------------------- parse_fetches

  function AttributeStep(f: Fetch, a: AttributeValue): Fetch {
    match a
    case FlagsAttr(flags) => f.(flags := f.flags + flags)
    case UidAttr(uid) => f.(uid := Some(uid))
    case OtherAttr(_) => f
  }

  function FlagsIn(a: AttributeValue): seq<Bytes> {
    if a.FlagsAttr? then a.flags else []
  }

  function UidIn(a: AttributeValue): Option<nat> {
    if a.UidAttr? then Some(a.uid) else None
  }

  function FetchMapper(r: Response): MapOrNot<Fetch> {
    match r
    case FetchData(num, attrs) => Map(FoldLeft(AttributeStep, Fetch(num, [], None), attrs))
    case _ => Not(r)
  }

  /** Folding the attributes of one FETCH line: FLAGS lists accumulate in order,
      the last UID wins, everything else is ignored. */
  lemma {:induction false} AttributesFold(f: Fetch, attrs: seq<AttributeValue>)
    ensures FoldLeft(AttributeStep, f, attrs)
      == Fetch(f.message, f.flags + ConcatOf(attrs, FlagsIn),
               if LastOf(attrs, UidIn).Some? then LastOf(attrs, UidIn) else f.uid)
    decreases |attrs|
  {
    if attrs != [] {
      var init, a := attrs[..|attrs| - 1], attrs[|attrs| - 1];
      assert attrs == init + [a];
      FoldLeftSnoc(AttributeStep, f, init, a);
      AttributesFold(f, init);
    }
  }

  /** `parse_fetches`: one `Fetch` per FETCH response; any other response is an error. */
  method ParseFetches(p: Parser, lines: Bytes) returns (r: Outcome<seq<Fetch>>)
    requires Progress(p)
    ensures r == ManySpec(p, lines, FetchMapper, [])
  {
    r := ParseMany(p, lines, FetchMapper);
  }

  /** Each `Fetch` is built from its own line only: its sequence number, the
      concatenated FLAGS of that line, and that line's last UID. */
  lemma FetchesOk(p: Parser, lines: Bytes, fetches: seq<Fetch>)
    requires Progress(p) && ManySpec(p, lines, FetchMapper, []) == Ok(fetches)
    ensures var rs := Tokenize(p, lines).responses;
      |fetches| == |rs| &&
      forall i | 0 <= i < |rs| ::
        && rs[i].FetchData?
        && fetches[i] == Fetch(rs[i].message, ConcatOf(rs[i].attributes, FlagsIn), LastOf(rs[i].attributes, UidIn))
  {
    ManyOk(p, lines, FetchMapper, fetches);
    var rs := Tokenize(p, lines).responses;
    forall i | 0 <= i < |rs|
      ensures rs[i].FetchData?
      ensures fetches[i] == Fetch(rs[i].message, ConcatOf(rs[i].attributes, FlagsIn), LastOf(rs[i].attributes, UidIn))
    {
      assert FetchMapper(rs[i]) == Map(fetches[i]);
      AttributesFold(Fetch(rs[i].message, [], None), rs[i].attributes);
    }
  }

  // -------------------------------------------------------- parse_capability

  function CapabilitiesIn(r: Response): seq<Bytes> {
    if r.Capabilities? then r.capabilities else []
  }

  function FlattenFront(rs: seq<Response>): seq<Bytes> {
    if rs == [] then [] else CapabilitiesIn(rs[0]) + FlattenFront(rs[1..])
  }

  predicate NotCapabilities(r: Response) {
    !r.Capabilities?
  }

  /** What `parse_capability` returns when `acc` has already been collected. */
  function CapabilitySpec(p: Parser, lines: Bytes, acc: seq<Bytes>): Outcome<seq<Bytes>>
    requires Progress(p)
  {
    var t := Tokenize(p, lines);
    var k := FirstWhere(t.responses, NotCapabilities);
    if k < |t.responses| then Err(Parse(Unexpected(t.responses[k])))
    else if t.stuck.Some? then Err(Parse(Invalid(t.stuck.value)))
    else Ok(acc + FlattenFront(t.responses))
  }

  lemma CapabilityStep(p: Parser, lines: Bytes, acc: seq<Bytes>)
    requires Progress(p) && p(lines).Parsed? && p(lines).rest != []
    requires p(lines).response.Capabilities?
    ensures CapabilitySpec(p, lines, acc) == CapabilitySpec(p, p(lines).rest, acc + p(lines).response.capabilities)
  {
    var r := p(lines).response;
    var t := Tokenize(p, p(lines).rest);
    var all := Tokenize(p, lines).responses;
    assert all == [r] + t.responses;
    assert all[1..] == t.responses;
    assert Tokenize(p, lines).stuck == t.stuck;
    var k := FirstWhere(all, NotCapabilities);
    assert k == 1 + FirstWhere(t.responses, NotCapabilities);
    if k < |all| {
      assert all[k] == t.responses[k - 1];
    } else {
      assert FlattenFront(all) == r.capabilities + FlattenFront(t.responses);
      assert acc + FlattenFront(all) == (acc + r.capabilities) + FlattenFront(t.responses);
    }
  }

  /** `parse_capability`: the tokens of successive CAPABILITY responses, in order;
      any other response is an error. */
  method ParseCapability(p: Parser, lines0: Bytes) returns (r: Outcome<seq<Bytes>>)
    requires Progress(p)
    ensures r == CapabilitySpec(p, lines0, [])
  {
    var capabilities: seq<Bytes> := [];
    var lines := lines0;
    while true
      invariant CapabilitySpec(p, lines, capabilities) == CapabilitySpec(p, lines0, [])
      decreases |lines|
    {
      match p(lines)
      case Parsed(rest, Capabilities(c)) =>
        if rest == [] {
          assert Tokenize(p, lines) == Tokens([Capabilities(c)], None);
          assert FirstWhere([Capabilities(c)], NotCapabilities) == 1;
          assert FlattenFront([Capabilities(c)]) == c;
          return Ok(capabilities + c);
        }
        CapabilityStep(p, lines, capabilities);
        lines := rest;
        capabilities := capabilities + c;
      case Parsed(_, resp) =>
        return Err(Parse(Unexpected(resp)));
      case _ =>
        return Err(Parse(Invalid(lines)));
    }
  }

  /** A successful `parse_capability` saw only CAPABILITY responses and returns
      all their tokens in order. */
  lemma CapabilityOk(p: Parser, lines: Bytes, caps: seq<Bytes>)
    requires Progress(p) && CapabilitySpec(p, lines, []) == Ok(caps)
    ensures var rs := Tokenize(p, lines).responses;
      && (forall i | 0 <= i < |rs| :: rs[i].Capabilities?)
      && caps == FlattenFront(rs)
  {
  }

  // ----------------------------------------------------------- parse_mailbox

  function MailboxStep(m: Mailbox, r: Response): Mailbox {
    match r
    case Data(_, code, _) =>
      (match code
       case Some(UidValidity(u)) => m.(uidValidity := Some(u))
       case Some(UidNext(u)) => m.(uidNext := Some(u))
       case Some(PermanentFlags(flags)) => m.(permanentFlags := m.permanentFlags + flags)
       case _ => m)
    case MailboxData(d) =>
      (match d
       case Exists(e) => m.(existsCount := e)
       case Recent(n) => m.(recent := n)
       case Flags(flags) => m.(flags := m.flags + flags)
       case List(_, _, _) => m)
    case _ => m
  }

  /** A response `parse_mailbox` folds into the mailbox. */
  predicate MailboxAccepts(r: Response) {
    r.MailboxData? || (r.Data? && r.status == OK)
  }

  predicate MailboxRejects(r: Response) {
    !MailboxAccepts(r)
  }

  /** What `parse_mailbox` returns when it has built `m` so far. An untagged
      status response other than OK reaches `unreachable!()`. */
  function MailboxSpec(p: Parser, lines: Bytes, m: Mailbox): Outcome<Mailbox>
    requires Progress(p)
  {
    var t := Tokenize(p, lines);
    var k := FirstWhere(t.responses, MailboxRejects);
    if k < |t.responses| then
      (if t.responses[k].Data? then Panic(Unreachable) else Err(Parse(Unexpected(t.responses[k]))))
    else if t.stuck.Some? then Err(Parse(Invalid(t.stuck.value)))
    else Ok(FoldLeft(MailboxStep, m, t.responses))
  }

  lemma MailboxStepLemma(p: Parser, lines: Bytes, m: Mailbox)
    requires Progress(p) && p(lines).Parsed? && p(lines).rest != []
    requires MailboxAccepts(p(lines).response)
    ensures MailboxSpec(p, lines, m) == MailboxSpec(p, p(lines).rest, MailboxStep(m, p(lines).response))
  {
    var r := p(lines).response;
    var t := Tokenize(p, p(lines).rest);
    var all := Tokenize(p, lines).responses;
    assert all == [r] + t.responses;
    assert all[1..] == t.responses;
    assert Tokenize(p, lines).stuck == t.stuck;
    var k := FirstWhere(all, MailboxRejects);
    assert k == 1 + FirstWhere(t.responses, MailboxRejects);
    if k < |all| {
      assert all[k] == t.responses[k - 1];
    } else {
      assert FoldLeft(MailboxStep, m, all) == FoldLeft(MailboxStep, MailboxStep(m, r), t.responses);
    }
  }

  /** `parse_mailbox`: starts from `Mailbox::default()` and folds every
      untagged status and mailbox-data response into it. */
  method ParseMailbox(p: Parser, lines0: Bytes) returns (r: Outcome<Mailbox>)
    requires Progress(p)
    ensures r == MailboxSpec(p, lines0, DefaultMailbox)
  {
    var mailbox := DefaultMailbox;
    var lines := lines0;
    while true
      invariant MailboxSpec(p, lines, mailbox) == MailboxSpec(p, lines0, DefaultMailbox)
      decreases |lines|
    {
      match p(lines)
      case Parsed(rest, resp) =>
        if !MailboxAccepts(resp) {
          if resp.Data? {
            return Panic(Unreachable);
          }
          return Err(Parse(Unexpected(resp)));
        }
        if rest == [] {
          assert Tokenize(p, lines) == Tokens([resp], None);
          assert FirstWhere([resp], MailboxRejects) == 1;
          assert FoldLeft(MailboxStep, mailbox, [resp]) == MailboxStep(mailbox, resp);
          return Ok(MailboxStep(mailbox, resp));
        }
        MailboxStepLemma(p, lines, mailbox);
        lines := rest;
        mailbox := MailboxStep(mailbox, resp);
      case _ =>
        return Err(Parse(Invalid(lines)));
    }
  }

  function FlagsData(r: Response): seq<Bytes> {
    if r.MailboxData? && r.datum.Flags? then r.datum.flags else []
  }

  function PermanentFlagsCode(r: Response): seq<Bytes> {
    if r.Data? && r.code.Some? && r.code.value.PermanentFlags? then r.code.value.permanentFlags else []
  }

  function ExistsData(r: Response): Option<nat> {
    if r.MailboxData? && r.datum.Exists? then Some(r.datum.count) else None
  }

  function RecentData(r: Response): Option<nat> {
    if r.MailboxData? && r.datum.Recent? then Some(r.datum.recentCount) else None
  }

  function UidValidityCode(r: Response): Option<nat> {
    if r.Data? && r.code.Some? && r.code.value.UidValidity? then Some(r.code.value.uidValidity) else None
  }

  function UidNextCode(r: Response): Option<nat> {
    if r.Data? && r.code.Some? && r.code.value.UidNext? then Some(r.code.value.uidNext) else None
  }

  function Latest(o: Option<nat>, old_: Option<nat>): Option<nat> {
    if o.Some? then o else old_
  }

  /** Folding responses into a mailbox: EXISTS, RECENT, UIDVALIDITY and UIDNEXT
      keep the last value seen, FLAGS and PERMANENTFLAGS accumulate in order,
      UNSEEN and everything else change nothing. */
  lemma {:induction false} MailboxFold(m: Mailbox, rs: seq<Response>)
    ensures FoldLeft(MailboxStep, m, rs) == Mailbox(
      m.flags + ConcatOf(rs, FlagsData),
      LastOf(rs, ExistsData).GetOr(m.existsCount),
      LastOf(rs, RecentData).GetOr(m.recent),
      m.unseen,
      m.permanentFlags + ConcatOf(rs, PermanentFlagsCode),
      Latest(LastOf(rs, UidNextCode), m.uidNext),
      Latest(LastOf(rs, UidValidityCode), m.uidValidity))
    decreases |rs|
  {
    if rs != [] {
      var init, r := rs[..|rs| - 1], rs[|rs| - 1];
      assert rs == init + [r];
      FoldLeftSnoc(MailboxStep, m, init, r);
      MailboxFold(m, init);
      AppendAssociates(m.flags, ConcatOf(init, FlagsData), FlagsData(r));
      AppendAssociates(m.permanentFlags, ConcatOf(init, PermanentFlagsCode), PermanentFlagsCode(r));
    }
  }

  /** The mailbox `parse_mailbox` returns, field by field. */
  lemma MailboxOk(p: Parser, lines: Bytes, mb: Mailbox)
    requires Progress(p) && MailboxSpec(p, lines, DefaultMailbox) == Ok(mb)
    ensures var rs := Tokenize(p, lines).responses;
      && (forall i | 0 <= i < |rs| :: MailboxAccepts(rs[i]))
      && mb.flags == ConcatOf(rs, FlagsData)
      && mb.permanentFlags == ConcatOf(rs, PermanentFlagsCode)
      && mb.existsCount == LastOf(rs, ExistsData).GetOr(0)
      && mb.recent == LastOf(rs, RecentData).GetOr(0)
      && mb.unseen == None
      && mb.uidNext == LastOf(rs, UidNextCode)
      && mb.uidValidity == LastOf(rs, UidValidityCode)
  {
    MailboxFold(DefaultMailbox, Tokenize(p, lines).responses);
  }

  /** All three folds reject an empty buffer. */
  lemma EmptyBufferRejected<T>(p: Parser, mapper: Response -> MapOrNot<T>)
    requires Progress(p)
    ensures ManySpec(p, [], mapper, []) == Err(Parse(Invalid([])))
    ensures CapabilitySpec(p, [], []) == Err(Parse(Invalid([])))
    ensures MailboxSpec(p, [], DefaultMailbox) == Err(Parse(Invalid([])))
  {
    TokenizeEmpty(p);
  }
}
